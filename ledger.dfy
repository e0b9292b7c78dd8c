/** The vote ledger of `WeightsData`: `y` holds the distinct votes in
    ascending order, `w[i]` the aggregated weight of vote `y[i]`.

    Located votes are found with Rust's `binary_search`, whose result on a
    strictly ascending vector is fully determined: `Ok(i)` when `y[i]` is the
    vote, `Err(i)` with `i` the insertion point otherwise. `Locate` states
    that result; `BinarySearch` computes it with a loop. */
module Ledger {
  import opened Base

  /** Strictly ascending: sorted, with no duplicate vote. */
  ghost predicate Ascending(y: seq<int>) {
    forall i, j :: 0 <= i < j < |y| ==> y[i] < y[j]
  }

  /** The two results of `binary_search`: `Ok(index)` and `Err(index)`. */
  datatype Position = Found(index: nat) | Missing(index: nat)

  /** Where `v` sits in `y`, or where it would be inserted. */
  function Locate(y: seq<int>, v: int): (p: Position)
    ensures p.Found? ==> p.index < |y| && y[p.index] == v
    ensures p.Missing? ==> p.index <= |y| && (p.index < |y| ==> v < y[p.index])
    ensures forall j :: 0 <= j < p.index ==> y[j] < v
  {
    if |y| == 0 then Missing(0)
    else if y[0] == v then Found(0)
    else if v < y[0] then Missing(0)
    else
      match Locate(y[1..], v)
      case Found(i) => Found(i + 1)
      case Missing(i) => Missing(i + 1)
  }

  /** In an ascending ledger a vote is found exactly when it is present,
      and a missing vote splits the ledger into smaller and larger votes. */
  lemma LocateAscending(y: seq<int>, v: int)
    requires Ascending(y)
    ensures Locate(y, v).Found? <==> v in y
    ensures Locate(y, v).Missing? ==>
      forall j :: Locate(y, v).index <= j < |y| ==> v < y[j]
  {
    var p := Locate(y, v);
    if p.Missing? {
      forall j | p.index <= j < |y| ensures v < y[j] {
        assert v < y[p.index];
        assert p.index < j ==> y[p.index] < y[j];
      }
    }
  }

  /** Any index that has the two properties of `Locate` is `Locate`'s. */
  lemma LocateUnique(y: seq<int>, v: int, p: Position)
    requires Ascending(y)
    requires p.Found? ==> p.index < |y| && y[p.index] == v
    requires p.Missing? ==> p.index <= |y| && (p.index < |y| ==> v < y[p.index])
    requires forall j :: 0 <= j < p.index ==> y[j] < v
    ensures Locate(y, v) == p
  {
    LocateAscending(y, v);
  }

  /** `Vec::binary_search` on an ascending vector. */
  method BinarySearch(y: seq<i128>, v: i128) returns (p: Position)
    requires Ascending(y)
    ensures p == Locate(y, v)
  {
    var lo, hi := 0, |y|;
    while lo < hi
      invariant 0 <= lo <= hi <= |y|
      invariant forall j :: 0 <= j < lo ==> y[j] < v
      invariant forall j :: hi <= j < |y| ==> v < y[j]
      decreases hi - lo
    {
      var mid := lo + (hi - lo) / 2;
      if y[mid] < v {
        lo := mid + 1;
      } else if v < y[mid] {
        hi := mid;
      } else {
        p := Found(mid);
        LocateUnique(y, v, p);
        return;
      }
    }
    p := Missing(lo);
    LocateUnique(y, v, p);
  }

  /** `Vec::insert(i, x)`. */
  function InsertAt<T>(s: seq<T>, i: nat, x: T): (r: seq<T>)
    requires i <= |s|
    ensures |r| == |s| + 1 && r[i] == x
    ensures forall j :: 0 <= j < i ==> r[j] == s[j]
    ensures forall j :: i < j < |r| ==> r[j] == s[j - 1]
  {
    s[..i] + [x] + s[i..]
  }

  /** `Vec::remove(i)`. */
  function RemoveAt<T>(s: seq<T>, i: nat): (r: seq<T>)
    requires i < |s|
    ensures |r| == |s| - 1
    ensures forall j :: 0 <= j < i ==> r[j] == s[j]
    ensures forall j :: i <= j < |r| ==> r[j] == s[j + 1]
  {
    s[..i] + s[i + 1..]
  }

  /** Removing what was just inserted at the same index gives back the
      original sequence. */
  lemma RemoveInserted<T>(s: seq<T>, i: nat, x: T)
    requires i <= |s|
    ensures RemoveAt(InsertAt(s, i, x), i) == s
  {
    var r := RemoveAt(InsertAt(s, i, x), i);
    assert |r| == |s|;
    forall j | 0 <= j < |s| ensures r[j] == s[j] { }
  }

  /** The ledger read as a dictionary from vote to weight. */
  ghost function Weights(y: seq<int>, w: seq<u128>): (m: map<int, u128>)
    requires |y| == |w| && Ascending(y)
    ensures forall key :: key in m <==> key in y
    ensures forall i :: 0 <= i < |y| ==> y[i] in m && m[y[i]] == w[i]
  {
    map i | 0 <= i < |y| :: y[i] := w[i]
  }

  /** A dictionary is the ledger's when it holds exactly the ledger's votes,
      each with its weight. */
  lemma WeightsIs(y: seq<int>, w: seq<u128>, m: map<int, u128>)
    requires |y| == |w| && Ascending(y)
    requires forall i :: 0 <= i < |y| ==> y[i] in m && m[y[i]] == w[i]
    requires forall key :: key in m ==> key in y
    ensures Weights(y, w) == m
  {
    var W := Weights(y, w);
    forall key | key in m ensures key in W && W[key] == m[key] {
      var i :| 0 <= i < |y| && y[i] == key;
    }
    forall key | key in W ensures key in m {
      var i :| 0 <= i < |y| && y[i] == key;
    }
  }

  /** The vectors after the upsert step, and whether it created an entry. */
  datatype Upserted = Upserted(y: seq<i128>, w: seq<u128>, added: bool)

  /** Upsert of `rebalance`: a present vote gets a saturating `+ stake`
      (skipped for a zero stake); a missing vote is inserted at its sorted
      position with weight `stake`, even a zero one. */
  function Upsert(y: seq<i128>, w: seq<u128>, v: i128, stake: u128): (r: Upserted)
    requires |y| == |w| && Ascending(y)
    ensures |r.y| == |r.w| && Ascending(r.y)
    ensures r.added <==> v !in y
    ensures |r.y| == if r.added then |y| + 1 else |y|
    ensures v in r.y
  {
    LocateAscending(y, v);
    match Locate(y, v)
    case Found(i) =>
      Upserted(y, if stake != 0 then w[i := SatAdd(w[i], stake)] else w, false)
    case Missing(i) =>
      var y' := InsertAt(y, i, v);
      assert Ascending(y') by {
        forall a, b | 0 <= a < b < |y'| ensures y'[a] < y'[b] {
          if b == i { assert y[a] < v; }
          else if a == i { assert v < y[b - 1]; }
        }
      }
      Upserted(y', InsertAt(w, i, stake), true)
  }

  /** Overwriting one weight overwrites that vote's entry. */
  lemma SetWeightMeaning(y: seq<i128>, w: seq<u128>, i: nat, x: u128)
    requires |y| == |w| && Ascending(y) && i < |y|
    ensures Weights(y, w[i := x]) == Weights(y, w)[y[i] := x]
  {
    WeightsIs(y, w[i := x], Weights(y, w)[y[i] := x]);
  }

  /** Inserting a vote at an index adds that vote to the dictionary. */
  lemma InsertMeaning(y: seq<i128>, w: seq<u128>, i: nat, v: i128, x: u128)
    requires |y| == |w| && Ascending(y) && i <= |y|
    requires Ascending(InsertAt(y, i, v)) && v !in y
    ensures Weights(InsertAt(y, i, v), InsertAt(w, i, x)) == Weights(y, w)[v := x]
  {
    var y', w' := InsertAt(y, i, v), InsertAt(w, i, x);
    var m := Weights(y, w)[v := x];
    InsertEntries(y, w, i, v, x, m);
    InsertKeys(y, i, v, m);
    WeightsIs(y', w', m);
  }

  lemma InsertEntries(y: seq<i128>, w: seq<u128>, i: nat, v: i128, x: u128, m: map<int, u128>)
    requires |y| == |w| && Ascending(y) && i <= |y|
    requires m == Weights(y, w)[v := x] && v !in y
    ensures forall j :: 0 <= j < |y| + 1 ==>
      InsertAt(y, i, v)[j] in m && m[InsertAt(y, i, v)[j]] == InsertAt(w, i, x)[j]
  {
    var y', w' := InsertAt(y, i, v), InsertAt(w, i, x);
    forall j | 0 <= j < |y'| ensures y'[j] in m && m[y'[j]] == w'[j] {
      if j != i {
        var jj := if j < i then j else j - 1;
        assert y'[j] == y[jj] && w'[j] == w[jj];
      }
    }
  }

  lemma InsertKeys(y: seq<i128>, i: nat, v: i128, m: map<int, u128>)
    requires i <= |y|
    requires forall key :: key in m ==> key == v || key in y
    ensures forall key :: key in m ==> key in InsertAt(y, i, v)
  {
    var y' := InsertAt(y, i, v);
    forall key | key in m ensures key in y' {
      if key != v {
        var jj :| 0 <= jj < |y| && y[jj] == key;
        assert y'[if jj < i then jj else jj + 1] == key;
      }
    }
  }

  /** Removing an entry keeps the votes ascending. */
  lemma RemoveAscending(y: seq<i128>, i: nat)
    requires Ascending(y) && i < |y|
    ensures Ascending(RemoveAt(y, i))
  {
    var y' := RemoveAt(y, i);
    forall a, b | 0 <= a < b < |y'| ensures y'[a] < y'[b] {
      var aa, bb := if a < i then a else a + 1, if b < i then b else b + 1;
      assert y'[a] == y[aa] && y'[b] == y[bb];
    }
  }

  /** Removing the entry at an index drops that vote from the dictionary. */
  lemma RemoveMeaning(y: seq<i128>, w: seq<u128>, i: nat)
    requires |y| == |w| && Ascending(y) && i < |y|
    ensures Ascending(RemoveAt(y, i))
    ensures Weights(RemoveAt(y, i), RemoveAt(w, i)) == Weights(y, w) - {y[i]}
  {
    var y', w' := RemoveAt(y, i), RemoveAt(w, i);
    var m := Weights(y, w) - {y[i]};
    RemoveAscending(y, i);
    RemoveEntries(y, w, i, m);
    RemoveKeys(y, i, m);
    WeightsIs(y', w', m);
  }

  lemma RemoveEntries(y: seq<i128>, w: seq<u128>, i: nat, m: map<int, u128>)
    requires |y| == |w| && Ascending(y) && i < |y|
    requires m == Weights(y, w) - {y[i]}
    ensures forall j :: 0 <= j < |y| - 1 ==>
      RemoveAt(y, i)[j] in m && m[RemoveAt(y, i)[j]] == RemoveAt(w, i)[j]
  {
    var y', w' := RemoveAt(y, i), RemoveAt(w, i);
    forall j | 0 <= j < |y'| ensures y'[j] in m && m[y'[j]] == w'[j] {
      var jj := if j < i then j else j + 1;
      assert y'[j] == y[jj] && w'[j] == w[jj];
      assert y[jj] != y[i];
    }
  }

  lemma RemoveKeys(y: seq<i128>, i: nat, m: map<int, u128>)
    requires i < |y|
    requires forall key :: key in m ==> key != y[i] && key in y
    ensures forall key :: key in m ==> key in RemoveAt(y, i)
  {
    var y' := RemoveAt(y, i);
    forall key | key in m ensures key in y' {
      var jj :| 0 <= jj < |y| && y[jj] == key;
      assert jj != i;
      assert y'[if jj < i then jj else jj - 1] == key;
    }
  }

  /** Read as a dictionary, the upsert adds `stake` (saturating) to the
      vote's weight, or creates the vote with weight `stake`. */
  lemma UpsertMeaning(y: seq<i128>, w: seq<u128>, v: i128, stake: u128)
    requires |y| == |w| && Ascending(y)
    ensures var W, r := Weights(y, w), Upsert(y, w, v, stake);
      Weights(r.y, r.w) ==
        if v in W then W[v := SatAdd(W[v], stake)] else W[v := stake]
  {
    LocateAscending(y, v);
    var i := Locate(y, v).index;
    if v in y {
      var w' := w[i := SatAdd(w[i], stake)];
      assert stake == 0 ==> w' == w;
      assert Upsert(y, w, v, stake) == Upserted(y, w', false);
      SetWeightMeaning(y, w, i, SatAdd(w[i], stake));
    } else {
      assert Upsert(y, w, v, stake) == Upserted(InsertAt(y, i, v), InsertAt(w, i, stake), true);
      InsertMeaning(y, w, i, v, stake);
    }
  }

  /** The vectors after the decrement step, and the index of the entry it
      removed, if it removed one. */
  datatype Decremented = Decremented(y: seq<i128>, w: seq<u128>, removed: Option<nat>)

  /** Decrement of `rebalance`: a missing vote aborts; otherwise the weight
      gets a saturating `- stake`, and an entry left at zero is removed from
      both vectors. */
  function Decrement(y: seq<i128>, w: seq<u128>, v: i128, stake: u128): (r: Outcome<Decremented>)
    requires |y| == |w| && Ascending(y)
    ensures r.Abort? <==> v !in y
    ensures r.Abort? ==> r.fault == MissingOldVote
    ensures r.Done? ==> |r.value.y| == |r.value.w| && Ascending(r.value.y)
    ensures r.Done? && r.value.removed.Some? ==>
      var i := r.value.removed.value;
      i < |y| && y[i] == v && SatSub(w[i], stake) == 0 && |r.value.y| == |y| - 1 && v !in r.value.y
    ensures r.Done? && r.value.removed.None? ==> r.value.y == y
  {
    LocateAscending(y, v);
    match Locate(y, v)
    case Missing(_) => Abort(MissingOldVote)
    case Found(i) =>
      var left := SatSub(w[i], stake);
      if left == 0 then
        var y' := RemoveAt(y, i);
        assert forall j :: 0 <= j < |y'| ==> y'[j] != v by {
          forall j | 0 <= j < |y'| ensures y'[j] != v {
            if j < i { assert y[j] < y[i]; } else { assert y[i] < y[j + 1]; }
          }
        }
        Done(Decremented(y', RemoveAt(w, i), Some(i)))
      else
        Done(Decremented(y, w[i := left], None))
  }

  /** Read as a dictionary, the decrement subtracts `stake` (saturating)
      from the vote's weight and drops the vote once its weight is zero. */
  lemma DecrementMeaning(y: seq<i128>, w: seq<u128>, v: i128, stake: u128)
    requires |y| == |w| && Ascending(y) && v in y
    ensures var W, r := Weights(y, w), Decrement(y, w, v, stake);
      r.Done? &&
      Weights(r.value.y, r.value.w) ==
        if SatSub(W[v], stake) == 0 then W - {v} else W[v := SatSub(W[v], stake)]
  {
    LocateAscending(y, v);
    var i := Locate(y, v).index;
    if SatSub(w[i], stake) == 0 {
      RemoveMeaning(y, w, i);
    } else {
      SetWeightMeaning(y, w, i, SatSub(w[i], stake));
    }
  }

  /** Round trip within one call: upserting `stake` on a vote and then
      decrementing the same vote by the same nonzero `stake` gives back the
      ledger, as long as the addition did not saturate and a present vote
      did not carry a zero weight. A vote that was missing is inserted and
      then removed again at the same index. */
  lemma UpsertThenDecrement(y: seq<i128>, w: seq<u128>, v: i128, stake: u128)
    requires |y| == |w| && Ascending(y) && stake != 0
    requires v in y ==> Weights(y, w)[v] != 0 && Weights(y, w)[v] + stake <= U128_MAX
    ensures var u := Upsert(y, w, v, stake);
      Decrement(u.y, u.w, v, stake) ==
        Done(Decremented(y, w, if u.added then Some(Locate(y, v).index) else None))
  {
    LocateAscending(y, v);
    var i := Locate(y, v).index;
    if v in y {
      assert w[i] == Weights(y, w)[v];
      RoundTripPresent(y, w, i, v, stake);
    } else {
      RoundTripMissing(y, w, i, v, stake);
    }
  }

  lemma RoundTripPresent(y: seq<i128>, w: seq<u128>, i: nat, v: i128, stake: u128)
    requires |y| == |w| && Ascending(y) && stake != 0
    requires Locate(y, v) == Found(i) && w[i] != 0 && w[i] + stake <= U128_MAX
    ensures var u := Upsert(y, w, v, stake);
      !u.added && Decrement(u.y, u.w, v, stake) == Done(Decremented(y, w, None))
  {
    var w' := w[i := w[i] + stake];
    assert Upsert(y, w, v, stake) == Upserted(y, w', false);
    assert w'[i := w[i]] == w;
  }

  lemma RoundTripMissing(y: seq<i128>, w: seq<u128>, i: nat, v: i128, stake: u128)
    requires |y| == |w| && Ascending(y) && stake != 0
    requires Locate(y, v) == Missing(i)
    ensures var u := Upsert(y, w, v, stake);
      u.added && Decrement(u.y, u.w, v, stake) == Done(Decremented(y, w, Some(i)))
  {
    LocateAscending(y, v);
    var y', w' := InsertAt(y, i, v), InsertAt(w, i, stake);
    assert Upsert(y, w, v, stake) == Upserted(y', w', true);
    LocateUnique(y', v, Found(i));
    RemoveInserted(y, i, v);
    RemoveInserted(w, i, stake);
  }

  /** The same round trip on a present vote of weight zero does not give
      the ledger back: the decrement removes the entry. */
  lemma UpsertThenDecrementDropsEmpty(y: seq<i128>, w: seq<u128>, v: i128, stake: u128)
    requires |y| == |w| && Ascending(y) && stake != 0
    requires v in y && Weights(y, w)[v] == 0
    ensures var u := Upsert(y, w, v, stake);
      var d := Decrement(u.y, u.w, v, stake);
      d.Done? && v !in d.value.y && |d.value.y| == |y| - 1
  {
    var u := Upsert(y, w, v, stake);
    LocateAscending(y, v);
    var i := Locate(y, v).index;
    assert w[i] == Weights(y, w)[v];
    LocateUnique(u.y, v, Found(i));
  }

  /** An upsert of zero stake on a present vote changes nothing. */
  lemma UpsertZeroPresent(y: seq<i128>, w: seq<u128>, v: i128)
    requires |y| == |w| && Ascending(y) && v in y
    ensures Upsert(y, w, v, 0) == Upserted(y, w, false)
  {
    LocateAscending(y, v);
  }
}
