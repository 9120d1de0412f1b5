/** The few things every component of the model shares. */
module Common {

  datatype Option<+T> = None | Some(value: T)

  datatype Result<+T> = Ok(value: T) | Err

  function Min(a: nat, b: nat): nat { if a <= b then a else b }

  function LesserOf(x: real, y: real): real { if x <= y then x else y }

  function LowerChar(c: char): char { if 'A' <= c <= 'Z' then c - 'A' + 'a' else c }

  /** The ASCII-lowercased text: two spellings of one hex id fold to the same string. */
  function AsciiLower(s: string): (r: string)
    ensures |r| == |s|
  {
    if s == "" then "" else AsciiLower(s[..|s| - 1]) + [LowerChar(s[|s| - 1])]
  }

  lemma {:induction false} AsciiLowerAt(s: string, i: nat)
    requires i < |s|
    ensures AsciiLower(s)[i] == LowerChar(s[i])
  {
    if i == |s| - 1 {
    } else {
      AsciiLowerAt(s[..|s| - 1], i);
    }
  }

  /** Subtraction that stops at zero. */
  function SaturatingSub(a: nat, b: nat): nat { if a <= b then 0 else a - b }

  /** `part` is what `whole` holds at the places `picks`, in their order, each place once. */
  ghost predicate Selects<T>(whole: seq<T>, picks: seq<nat>, part: seq<T>) {
    && |part| == |picks|
    && (forall k :: 0 <= k < |picks| ==> picks[k] < |whole| && part[k] == whole[picks[k]])
    && (forall j, k :: 0 <= j < k < |picks| ==> picks[j] < picks[k])
  }

  /** One element more, left out or taken. */
  lemma SelectsOneMore<T>(whole: seq<T>, picks: seq<nat>, part: seq<T>)
    requires whole != [] && Selects(whole[..|whole| - 1], picks, part)
    ensures var n := |whole| - 1;
      Selects(whole, picks, part) && n !in picks && Selects(whole, picks + [n], part + [whole[n]])
  {
    assert forall k :: 0 <= k < |picks| ==> picks[k] < |whole| - 1;
  }

  lemma SubsetSize<T>(a: set<T>, b: set<T>)
    requires a <= b
    ensures |a| <= |b| && (|a| == |b| ==> a == b)
  {
    assert b == a + (b - a);
  }
}

/** What nodes tell each other about who holds a piece of content. */
module ProviderRecords {
  import opened Common

  type CoinId = nat

  /** A provider record: who claims to hold the content, the coin it points at, when the claim expires, and
    * everything else it carries (addresses among it), which nothing here looks at. */
  datatype ProviderRecord = ProviderRecord(peerId: string, coin: Option<CoinId>, expiresAt: nat, rest: nat)

  type Slate = seq<ProviderRecord>
}

/** The standard library's stable sort by a key. */
module StableSort {

  /** `x` placed after every element whose key does not exceed its own. */
  function Insert<T>(s: seq<T>, x: T, key: T -> int): (r: seq<T>)
    ensures |r| == |s| + 1
  {
    if s == [] || key(s[|s| - 1]) <= key(x) then s + [x] else Insert(s[..|s| - 1], x, key) + [s[|s| - 1]]
  }

  function Sorted<T>(s: seq<T>, key: T -> int): (r: seq<T>)
    ensures |r| == |s|
  {
    if s == [] then [] else Insert(Sorted(s[..|s| - 1], key), s[|s| - 1], key)
  }

  predicate Ordered<T>(s: seq<T>, key: T -> int) { forall i, j :: 0 <= i <= j < |s| ==> key(s[i]) <= key(s[j]) }

  lemma {:induction false} InsertAdds<T>(s: seq<T>, x: T, key: T -> int)
    ensures multiset(Insert(s, x, key)) == multiset(s) + multiset{x}
  {
    if s == [] || key(s[|s| - 1]) <= key(x) {
    } else {
      var n := |s| - 1;
      InsertAdds(s[..n], x, key);
      assert s == s[..n] + [s[n]];
    }
  }

  /** Nothing comes out of an insertion that did not go in. */
  lemma InsertHolds<T>(s: seq<T>, x: T, key: T -> int, y: T)
    ensures y in Insert(s, x, key) <==> y in s || y == x
  {
    InsertAdds(s, x, key);
    assert y in Insert(s, x, key) <==> y in multiset(Insert(s, x, key));
  }

  lemma {:induction false} InsertKeepsOrder<T>(s: seq<T>, x: T, key: T -> int)
    requires Ordered(s, key)
    ensures Ordered(Insert(s, x, key), key)
  {
    if s == [] || key(s[|s| - 1]) <= key(x) {
    } else {
      var n := |s| - 1;
      InsertKeepsOrder(s[..n], x, key);
      var t := Insert(s[..n], x, key);
      forall i | 0 <= i < |t| ensures key(t[i]) <= key(s[n]) {
        assert t[i] in t;
        InsertHolds(s[..n], x, key, t[i]);
      }
    }
  }

  lemma {:induction false} SortedIsOrdered<T>(s: seq<T>, key: T -> int)
    ensures Ordered(Sorted(s, key), key) && multiset(Sorted(s, key)) == multiset(s)
  {
    if s == [] {
    } else {
      var n := |s| - 1;
      SortedIsOrdered(s[..n], key);
      InsertKeepsOrder(Sorted(s[..n], key), s[n], key);
      InsertAdds(Sorted(s[..n], key), s[n], key);
      assert s == s[..n] + [s[n]];
    }
  }

  lemma SortedHolds<T>(s: seq<T>, key: T -> int, y: T)
    ensures y in Sorted(s, key) <==> y in s
  {
    SortedIsOrdered(s, key);
    assert y in Sorted(s, key) <==> y in multiset(Sorted(s, key));
  }

  /** Where an insertion puts its element: behind everything its key does not come before, ahead of the rest. */
  lemma {:induction false} InsertAt<T>(s: seq<T>, x: T, key: T -> int) returns (p: nat)
    ensures p <= |s| && Insert(s, x, key) == s[..p] + [x] + s[p..]
    ensures p > 0 ==> key(s[p - 1]) <= key(x)
    ensures forall k :: p <= k < |s| ==> key(s[k]) > key(x)
  {
    if s == [] || key(s[|s| - 1]) <= key(x) {
      p := |s|;
    } else {
      p := InsertAt(s[..|s| - 1], x, key);
    }
  }

  /** `places` are the places of `s`, each once, in the order a stable sort by `key` takes them. */
  ghost predicate StableOrder<T>(s: seq<T>, places: seq<nat>, key: T -> int) {
    && |places| == |s| && (forall k :: 0 <= k < |places| ==> places[k] < |s|)
    && forall j, k :: 0 <= j < k < |places| ==>
      key(s[places[j]]) < key(s[places[k]]) || (key(s[places[j]]) == key(s[places[k]]) && places[j] < places[k])
  }

  /** Sorting takes every element once, smallest key first and ties in their own order. */
  lemma {:induction false} SortedIsStable<T>(s: seq<T>, key: T -> int) returns (places: seq<nat>)
    ensures StableOrder(s, places, key)
    ensures forall k :: 0 <= k < |s| ==> Sorted(s, key)[k] == s[places[k]]
  {
    if s == [] {
      places := [];
    } else {
      var n := |s| - 1;
      var before := SortedIsStable(s[..n], key);
      places := InsertedIsStable(s, Sorted(s[..n], key), before, key);
    }
  }

  lemma InsertedIsStable<T>(s: seq<T>, t: seq<T>, before: seq<nat>, key: T -> int) returns (places: seq<nat>)
    requires s != [] && StableOrder(s[..|s| - 1], before, key) && |t| == |before|
    requires forall k :: 0 <= k < |t| ==> t[k] == s[..|s| - 1][before[k]]
    ensures StableOrder(s, places, key)
    ensures forall k :: 0 <= k < |s| ==> Insert(t, s[|s| - 1], key)[k] == s[places[k]]
  {
    var n := |s| - 1;
    var p := InsertAt(t, s[n], key);
    places := Spliced(before, p, n);
    SplicedTogether(s, t, before, p);
    PlacedOneMore(s, before, p, key);
    assert Insert(t, s[n], key) == Spliced(t, p, s[n]);
  }

  function Spliced<T>(s: seq<T>, p: nat, x: T): (r: seq<T>)
    requires p <= |s|
    ensures |r| == |s| + 1 && r[p] == x
    ensures forall k :: 0 <= k < p ==> r[k] == s[k]
    ensures forall k :: p < k <= |s| ==> r[k] == s[k - 1]
  {
    s[..p] + [x] + s[p..]
  }

  lemma SplicedTogether<T>(s: seq<T>, t: seq<T>, before: seq<nat>, p: nat)
    requires |s| == |t| + 1 == |before| + 1 && p <= |t|
    requires forall k :: 0 <= k < |t| ==> before[k] < |t| && t[k] == s[before[k]]
    ensures forall k :: 0 <= k < |s| ==> Spliced(t, p, s[|t|])[k] == s[Spliced(before, p, |t|)[k]]
  {
    forall k | 0 <= k < |s| ensures Spliced(t, p, s[|t|])[k] == s[Spliced(before, p, |t|)[k]] {
      if k > p { assert t[k - 1] == s[before[k - 1]]; }
    }
  }

  lemma PlacedOneMore<T>(s: seq<T>, before: seq<nat>, p: nat, key: T -> int)
    requires s != [] && StableOrder(s[..|s| - 1], before, key) && p <= |before|
    requires p > 0 ==> key(s[before[p - 1]]) <= key(s[|s| - 1])
    requires forall k :: p <= k < |before| ==> key(s[before[k]]) > key(s[|s| - 1])
    ensures StableOrder(s, Spliced(before, p, |s| - 1), key)
  {
    var n, places := |s| - 1, Spliced(before, p, |s| - 1);
    assert forall k :: 0 <= k < n ==> s[..n][before[k]] == s[before[k]];
    forall j, k | 0 <= j < k < |places|
      ensures key(s[places[j]]) < key(s[places[k]]) || (key(s[places[j]]) == key(s[places[k]]) && places[j] < places[k])
    {
      if k == p && j < p - 1 { assert key(s[before[j]]) <= key(s[before[p - 1]]); }
    }
  }
}
