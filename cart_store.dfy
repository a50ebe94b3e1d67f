/** The cart repository: a list of (product, quantity) entries persisted under one storage key. */
module CartStore {
  import opened Catalog

  /** The cart invariant: at most one entry per product, and every amount at least 1. */
  predicate CartValid(entries: seq<CartEntry>)
  {
    (forall i, j :: 0 <= i < j < |entries| ==> entries[i].productId != entries[j].productId) &&
    (forall i :: 0 <= i < |entries| ==> entries[i].amount >= 1)
  }

  /** The quantity shown for a product (`cartEntry?.amount ?? 0`). */
  function Quantity(entries: seq<CartEntry>, productId: string): int
  {
    match FindEntry(entries, productId)
    case None => 0
    case Some(e) => e.amount
  }

  /** The entries for all other products, in their stored order. */
  function Others(entries: seq<CartEntry>, productId: string): seq<CartEntry>
  {
    if entries == [] then []
    else if entries[0].productId == productId then Others(entries[1..], productId)
    else [entries[0]] + Others(entries[1..], productId)
  }

  /** The stored entries after `add(productId)`. */
  function Added(entries: seq<CartEntry>, productId: string): seq<CartEntry>
  {
    var index := EntryIndex(entries, productId);
    if index == -1 then entries + [CartEntry(productId, 1)]
    else entries[index := entries[index].(amount := entries[index].amount + 1)]
  }

  /** The stored entries after `remove(productId)`. */
  function Removed(entries: seq<CartEntry>, productId: string): seq<CartEntry>
  {
    var index := EntryIndex(entries, productId);
    if index == -1 then entries
    else if entries[index].amount <= 1 then entries[..index] + entries[index + 1..]
    else entries[index := entries[index].(amount := entries[index].amount - 1)]
  }

  /** `add` called `n` times. */
  function AddedTimes(entries: seq<CartEntry>, productId: string, n: nat): seq<CartEntry>
    decreases n
  {
    if n == 0 then entries else Added(AddedTimes(entries, productId, n - 1), productId)
  }

  /** `remove` called `n` times. */
  function RemovedTimes(entries: seq<CartEntry>, productId: string, n: nat): seq<CartEntry>
    decreases n
  {
    if n == 0 then entries else RemovedTimes(Removed(entries, productId), productId, n - 1)
  }

  // ---------------------------------------------------------------------------
  // Helpers

  /** A position holding the product, with no earlier one holding it, is what `findIndex` finds. */
  lemma EntryIndexAt(entries: seq<CartEntry>, productId: string, k: int)
    requires 0 <= k < |entries| && entries[k].productId == productId
    requires forall j :: 0 <= j < k ==> entries[j].productId != productId
    ensures EntryIndex(entries, productId) == k
  {
    assert HasEntry(entries, productId);
  }

  lemma {:induction false} OthersAppend(a: seq<CartEntry>, b: seq<CartEntry>, productId: string)
    ensures Others(a + b, productId) == Others(a, productId) + Others(b, productId)
    decreases |a|
  {
    if a == [] {
      assert a + b == b;
    } else {
      assert (a + b)[1..] == a[1..] + b;
      OthersAppend(a[1..], b, productId);
    }
  }

  /** Splitting around a position whose entry is for `productId` does not change `Others`. */
  lemma OthersAround(entries: seq<CartEntry>, index: int, productId: string)
    requires 0 <= index < |entries| && entries[index].productId == productId
    ensures Others(entries, productId) == Others(entries[..index] + entries[index + 1..], productId)
  {
    assert entries == entries[..index] + ([entries[index]] + entries[index + 1..]);
    OthersAppend(entries[..index], [entries[index]] + entries[index + 1..], productId);
    OthersAppend(entries[..index], entries[index + 1..], productId);
    assert ([entries[index]] + entries[index + 1..])[1..] == entries[index + 1..];
  }

  /** Replacing an entry for `productId` by another for `productId` does not change `Others`. */
  lemma OthersReplace(entries: seq<CartEntry>, index: int, e: CartEntry, productId: string)
    requires 0 <= index < |entries| && entries[index].productId == productId
    requires e.productId == productId
    ensures Others(entries[index := e], productId) == Others(entries, productId)
  {
    var updated := entries[index := e];
    OthersAround(entries, index, productId);
    OthersAround(updated, index, productId);
    assert updated[..index] == entries[..index];
    assert updated[index + 1..] == entries[index + 1..];
  }

  lemma {:induction false} OthersAbsent(entries: seq<CartEntry>, productId: string)
    requires !HasEntry(entries, productId)
    ensures Others(entries, productId) == entries
    decreases |entries|
  {
    if entries != [] {
      assert entries[0].productId != productId;
      assert !HasEntry(entries[1..], productId) by {
        forall i | 0 <= i < |entries| - 1 ensures entries[1..][i].productId != productId {
          assert entries[1..][i] == entries[i + 1];
        }
      }
      OthersAbsent(entries[1..], productId);
    }
  }

  // ---------------------------------------------------------------------------
  // add

  /** `add` raises the product's quantity by one and leaves every other product's entry,
      in order, as it was. */
  lemma AddedEffect(entries: seq<CartEntry>, productId: string)
    ensures Quantity(Added(entries, productId), productId) == Quantity(entries, productId) + 1
    ensures Others(Added(entries, productId), productId) == Others(entries, productId)
  {
    var index := EntryIndex(entries, productId);
    var r := Added(entries, productId);
    if index == -1 {
      assert r == entries + [CartEntry(productId, 1)];
      assert r[|entries|].productId == productId;
      assert EntryIndex(r, productId) == |entries|;
      OthersAppend(entries, [CartEntry(productId, 1)], productId);
      assert [CartEntry(productId, 1)][1..] == [];
    } else {
      EntryIndexAt(r, productId, index);
      OthersReplace(entries, index, r[index], productId);
    }
  }

  /** `add` leaves the quantity of every other product as it was. */
  lemma AddedOtherQuantity(entries: seq<CartEntry>, productId: string, other: string)
    requires other != productId
    ensures Quantity(Added(entries, productId), other) == Quantity(entries, other)
  {
    var index := EntryIndex(entries, productId);
    var r := Added(entries, productId);
    var k := EntryIndex(entries, other);
    if index == -1 {
      if k == -1 {
        assert !HasEntry(r, other) by {
          forall i | 0 <= i < |r| ensures r[i].productId != other {
            if i < |entries| { assert r[i] == entries[i]; }
          }
        }
      } else {
        assert r[k] == entries[k];
        assert EntryIndex(r, other) == k;
      }
    } else {
      if k == -1 {
        assert !HasEntry(r, other) by {
          forall i | 0 <= i < |r| ensures r[i].productId != other {
            if i != index { assert r[i] == entries[i]; }
          }
        }
      } else {
        assert r[k] == entries[k];
        assert EntryIndex(r, other) == k;
      }
    }
  }

  /** `add` keeps the cart invariant. */
  lemma AddedValid(entries: seq<CartEntry>, productId: string)
    requires CartValid(entries)
    ensures CartValid(Added(entries, productId))
  {
    var index := EntryIndex(entries, productId);
    var r := Added(entries, productId);
    if index == -1 {
      forall i, j | 0 <= i < j < |r| ensures r[i].productId != r[j].productId {
        if j == |entries| { assert r[i] == entries[i]; }
      }
    } else {
      forall i, j | 0 <= i < j < |r| ensures r[i].productId != r[j].productId {
        assert r[i].productId == entries[i].productId;
        assert r[j].productId == entries[j].productId;
      }
    }
  }

  /** With no entry for the product, `add` appends `{productId, amount: 1}`. */
  lemma AddedAbsent(entries: seq<CartEntry>, productId: string)
    requires !HasEntry(entries, productId)
    ensures Added(entries, productId) == entries + [CartEntry(productId, 1)]
    ensures Quantity(Added(entries, productId), productId) == 1
  {
    AddedEffect(entries, productId);
    assert Quantity(entries, productId) == 0;
  }

  /** With an entry for the product, `add` changes that entry's amount and nothing else:
      same length, same product order. */
  lemma AddedPresent(entries: seq<CartEntry>, productId: string)
    requires HasEntry(entries, productId)
    ensures |Added(entries, productId)| == |entries|
    ensures forall i :: 0 <= i < |entries| ==> Added(entries, productId)[i].productId == entries[i].productId
    ensures forall i :: 0 <= i < |entries| && entries[i].productId != productId ==>
              Added(entries, productId)[i] == entries[i]
  {
  }

  // ---------------------------------------------------------------------------
  // remove

  /** `remove` leaves every other product's entry, in order, as it was. */
  lemma RemovedOthers(entries: seq<CartEntry>, productId: string)
    ensures Others(Removed(entries, productId), productId) == Others(entries, productId)
  {
    var index := EntryIndex(entries, productId);
    if index != -1 {
      if entries[index].amount <= 1 {
        OthersAround(entries, index, productId);
      } else {
        OthersReplace(entries, index, entries[index].(amount := entries[index].amount - 1), productId);
      }
    }
  }

  /** With no entry for the product, `remove` is a no-op. */
  lemma RemovedAbsent(entries: seq<CartEntry>, productId: string)
    requires !HasEntry(entries, productId)
    ensures Removed(entries, productId) == entries
  {
  }

  /** Under the invariant, `remove` lowers the product's quantity by one, deleting
      the entry when it reaches zero. */
  lemma RemovedQuantity(entries: seq<CartEntry>, productId: string)
    requires CartValid(entries)
    requires HasEntry(entries, productId)
    ensures Quantity(Removed(entries, productId), productId) == Quantity(entries, productId) - 1
    ensures Quantity(entries, productId) == 1 ==> !HasEntry(Removed(entries, productId), productId)
    ensures |Removed(entries, productId)| ==
              if Quantity(entries, productId) == 1 then |entries| - 1 else |entries|
  {
    var index := EntryIndex(entries, productId);
    var r := Removed(entries, productId);
    if entries[index].amount <= 1 {
      assert !HasEntry(r, productId) by {
        forall i | 0 <= i < |r| ensures r[i].productId != productId {
          if i < index {
            assert r[i] == entries[i];
          } else {
            assert r[i] == entries[i + 1];
          }
        }
      }
    } else {
      EntryIndexAt(r, productId, index);
    }
  }

  /** `remove` keeps the cart invariant. */
  lemma RemovedValid(entries: seq<CartEntry>, productId: string)
    requires CartValid(entries)
    ensures CartValid(Removed(entries, productId))
  {
    var index := EntryIndex(entries, productId);
    var r := Removed(entries, productId);
    if index != -1 && entries[index].amount <= 1 {
      forall i, j | 0 <= i < j < |r| ensures r[i].productId != r[j].productId {
        var i' := if i < index then i else i + 1;
        var j' := if j < index then j else j + 1;
        assert r[i] == entries[i'] && r[j] == entries[j'];
      }
      forall i | 0 <= i < |r| ensures r[i].amount >= 1 {
        if i >= index { assert r[i] == entries[i + 1]; }
      }
    }
  }

  /** Under the invariant, `add` followed by `remove` restores the exact prior cart. */
  lemma RemoveAfterAdd(entries: seq<CartEntry>, productId: string)
    requires CartValid(entries)
    ensures Removed(Added(entries, productId), productId) == entries
  {
    var index := EntryIndex(entries, productId);
    var a := Added(entries, productId);
    if index == -1 {
      assert a[|entries|].productId == productId;
      assert EntryIndex(a, productId) == |entries|;
      assert a[..|entries|] + a[|entries| + 1..] == entries;
    } else {
      EntryIndexAt(a, productId, index);
      assert a[index].amount >= 2;
      assert a[index := a[index].(amount := a[index].amount - 1)] == entries;
    }
  }

  /** `add` on a cart whose only entry for the product is last increments that entry. */
  lemma AddedToTail(entries: seq<CartEntry>, productId: string, k: int)
    requires !HasEntry(entries, productId)
    ensures Added(entries + [CartEntry(productId, k)], productId) == entries + [CartEntry(productId, k + 1)]
  {
    var tail := entries + [CartEntry(productId, k)];
    assert tail[|entries|].productId == productId;
    EntryIndexAt(tail, productId, |entries|);
  }

  /** From a cart with no entry for the product, `n` adds leave one entry with amount `n`
      appended at the end. */
  lemma {:induction false} AddedTimesFromAbsent(entries: seq<CartEntry>, productId: string, n: nat)
    requires !HasEntry(entries, productId)
    requires n >= 1
    ensures AddedTimes(entries, productId, n) == entries + [CartEntry(productId, n)]
    decreases n
  {
    if n == 1 {
      AddedAbsent(entries, productId);
    } else {
      AddedTimesFromAbsent(entries, productId, n - 1);
      AddedToTail(entries, productId, n - 1);
    }
  }

  /** From a cart with no entry for the product, `n` adds give amount `n`. */
  lemma AddedTimesQuantity(entries: seq<CartEntry>, productId: string, n: nat)
    requires !HasEntry(entries, productId)
    ensures Quantity(AddedTimes(entries, productId, n), productId) == n
  {
    if n == 0 {
      assert Quantity(entries, productId) == 0;
    } else {
      AddedTimesFromAbsent(entries, productId, n);
      QuantityAtTail(entries, productId, n);
    }
  }

  /** An entry appended after entries for other products is the one `getByProductId` finds. */
  lemma QuantityAtTail(entries: seq<CartEntry>, productId: string, k: int)
    requires !HasEntry(entries, productId)
    ensures Quantity(entries + [CartEntry(productId, k)], productId) == k
  {
    var after := entries + [CartEntry(productId, k)];
    assert after[|entries|].productId == productId;
    EntryIndexAt(after, productId, |entries|);
  }

  /** From a cart with no entry for the product, `n` removes undo `n` adds. */
  lemma {:induction false} RemoveTimesUndoesAdds(entries: seq<CartEntry>, productId: string, n: nat)
    requires !HasEntry(entries, productId)
    ensures RemovedTimes(AddedTimes(entries, productId, n), productId, n) == entries
  {
    if n >= 1 {
      AddedTimesFromAbsent(entries, productId, n);
      RemovedTimesFromTail(entries, productId, n);
    }
  }

  /** `remove` on a cart whose only entry for the product is last touches only that entry. */
  lemma RemovedFromTail(entries: seq<CartEntry>, productId: string, k: int)
    requires !HasEntry(entries, productId)
    ensures Removed(entries + [CartEntry(productId, k)], productId) ==
              if k <= 1 then entries else entries + [CartEntry(productId, k - 1)]
  {
    var tail := entries + [CartEntry(productId, k)];
    assert tail[|entries|].productId == productId;
    EntryIndexAt(tail, productId, |entries|);
    if k <= 1 {
      assert tail[..|entries|] + tail[|entries| + 1..] == entries;
    }
  }

  /** Removing `n` times from a tail entry with amount `n` deletes it. */
  lemma {:induction false} RemovedTimesFromTail(entries: seq<CartEntry>, productId: string, n: nat)
    requires !HasEntry(entries, productId)
    requires n >= 1
    ensures RemovedTimes(entries + [CartEntry(productId, n)], productId, n) == entries
    decreases n
  {
    RemovedFromTail(entries, productId, n);
    if n == 1 {
      assert RemovedTimes(entries, productId, 0) == entries;
    } else {
      RemovedTimesFromTail(entries, productId, n - 1);
    }
  }

  /** The entries stored under the "cart" key; absent storage is the empty list. */
  class CartRepository {
    var entries: seq<CartEntry>

    constructor (stored: seq<CartEntry>)
      ensures entries == stored
    {
      entries := stored;
    }

    /** `getAll()`: the stored entries. */
    function GetAll(): seq<CartEntry>
      reads this
    {
      entries
    }

    /** `getByProductId(productId)`: the first entry for the product, or none. */
    function GetByProductId(productId: string): Option<CartEntry>
      reads this
    {
      FindEntry(entries, productId)
    }

    /** `add(productId)`: appends `{productId, 1}` or increments the existing entry. */
    method Add(productId: string)
      modifies this
      ensures entries == Added(old(entries), productId)
      ensures Quantity(entries, productId) == old(Quantity(entries, productId)) + 1
      ensures Others(entries, productId) == old(Others(entries, productId))
      ensures CartValid(old(entries)) ==> CartValid(entries)
    {
      var stored := entries;
      var index := EntryIndex(stored, productId);
      if index == -1 {
        stored := stored + [CartEntry(productId, 1)];
      } else {
        stored := stored[index := stored[index].(amount := stored[index].amount + 1)];
      }
      AddedEffect(entries, productId);
      if CartValid(entries) {
        AddedValid(entries, productId);
      }
      entries := stored;
    }

    /** `remove(productId)`: deletes the entry when its amount is at most 1, else decrements;
        a no-op when there is no entry. */
    method Remove(productId: string)
      modifies this
      ensures entries == Removed(old(entries), productId)
      ensures !HasEntry(old(entries), productId) ==> entries == old(entries)
      ensures Others(entries, productId) == old(Others(entries, productId))
      ensures CartValid(old(entries)) ==> CartValid(entries)
      ensures CartValid(old(entries)) && HasEntry(old(entries), productId) ==>
                Quantity(entries, productId) == old(Quantity(entries, productId)) - 1
    {
      var stored := entries;
      var index := EntryIndex(stored, productId);
      if index != -1 {
        var entry := stored[index];
        if entry.amount <= 1 {
          stored := stored[..index] + stored[index + 1..];
        } else {
          stored := stored[index := entry.(amount := entry.amount - 1)];
        }
      }
      RemovedOthers(entries, productId);
      if CartValid(entries) {
        RemovedValid(entries, productId);
        if HasEntry(entries, productId) {
          RemovedQuantity(entries, productId);
        }
      }
      entries := stored;
    }
  }
}
