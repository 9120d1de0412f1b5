/** The arithmetic both token buckets of this node rest on, stated over the record of one bucket's uses
  * and nothing else: what a window can take out of a bucket is what a full bucket holds plus what the
  * window pours back in. */
module TokenAccounting {

  /** One use of a bucket: when, how many tokens it held after refilling, how many were taken. */
  datatype Use = Use(at: real, before: real, spent: real) {
    function Left(): real { before - spent }
  }

  /** `next` follows `prev` in a bucket that gains at most `perUnit` tokens per unit of time. */
  predicate Follows(prev: Use, next: Use, perUnit: real) {
    prev.at <= next.at && next.before <= prev.Left() + (next.at - prev.at) * perUnit
  }

  /** A record a bucket could have produced. `slack` is how far below zero a use may leave it. */
  predicate Lawful(uses: seq<Use>, capacity: real, perUnit: real, slack: real) {
    uses != [] ==>
      var n := |uses| - 1;
      && Lawful(uses[..n], capacity, perUnit, slack)
      && uses[n].before <= capacity && 0.0 <= uses[n].spent && -slack <= uses[n].Left()
      && (n > 0 ==> Follows(uses[n - 1], uses[n], perUnit))
  }

  lemma LawfulOneMore(uses: seq<Use>, u: Use, capacity: real, perUnit: real, slack: real)
    requires Lawful(uses, capacity, perUnit, slack)
    requires u.before <= capacity && 0.0 <= u.spent && -slack <= u.Left()
    requires uses != [] ==> Follows(uses[|uses| - 1], u, perUnit)
    ensures Lawful(uses + [u], capacity, perUnit, slack)
  {
    assert (uses + [u])[..|uses|] == uses;
  }

  /** What was taken in the window [from, to]. */
  function SpentIn(uses: seq<Use>, from: real, to: real): real {
    if uses == [] then 0.0 else
      var u := uses[|uses| - 1];
      SpentIn(uses[..|uses| - 1], from, to) + (if from <= u.at <= to then u.spent else 0.0)
  }

  /** The most a window [from, to] can take: a bucketful, what the window pours in, and the slack. */
  function Ceiling(capacity: real, perUnit: real, slack: real, from: real, to: real): real {
    capacity + (to - from) * perUnit + slack
  }

  lemma ProductNonNegative(x: real, y: real)
    requires x >= 0.0 && y >= 0.0
    ensures x * y >= 0.0
  {
  }

  lemma {:induction false} NothingSpentEarlier(uses: seq<Use>, capacity: real, perUnit: real, slack: real, from: real,
                                               to: real)
    requires Lawful(uses, capacity, perUnit, slack)
    requires uses != [] && uses[|uses| - 1].at < from
    ensures SpentIn(uses, from, to) == 0.0
  {
    var n := |uses| - 1;
    if n == 0 {
    } else {
      NothingSpentEarlier(uses[..n], capacity, perUnit, slack, from, to);
    }
  }

  /** What was taken since `from` plus what is left is at most a bucketful plus the refill since. */
  lemma {:induction false} SpentPlusLeft(uses: seq<Use>, capacity: real, perUnit: real, slack: real, from: real,
                                         to: real)
    requires Lawful(uses, capacity, perUnit, slack) && perUnit >= 0.0
    requires uses != [] && from <= uses[|uses| - 1].at
    ensures var u := uses[|uses| - 1];
      SpentIn(uses, from, to) + u.Left() <= capacity + (u.at - from) * perUnit
  {
    var n := |uses| - 1;
    var u, rest := uses[n], uses[..n];
    ProductNonNegative(u.at - from, perUnit);
    var gained := (u.at - from) * perUnit;
    assert gained >= 0.0;
    if rest == [] || rest[n - 1].at < from {
      assert SpentIn(rest, from, to) == 0.0 by {
        if rest != [] { NothingSpentEarlier(rest, capacity, perUnit, slack, from, to); }
      }
      assert SpentIn(uses, from, to) <= u.spent;
      assert SpentIn(uses, from, to) + u.Left() <= capacity;
    } else {
      SpentPlusLeft(rest, capacity, perUnit, slack, from, to);
      Telescopes(from, rest[n - 1].at, u.at, perUnit);
    }
  }

  lemma Telescopes(from: real, mid: real, to: real, perUnit: real)
    ensures (mid - from) * perUnit + (to - mid) * perUnit == (to - from) * perUnit
  {
  }

  /** The window law. */
  lemma {:induction false} WindowLaw(uses: seq<Use>, capacity: real, perUnit: real, slack: real, from: real, to: real)
    requires Lawful(uses, capacity, perUnit, slack)
    requires perUnit >= 0.0 && slack >= 0.0 && capacity >= 0.0 && from <= to
    ensures SpentIn(uses, from, to) <= Ceiling(capacity, perUnit, slack, from, to)
  {
    ProductNonNegative(to - from, perUnit);
    var gained := (to - from) * perUnit;
    assert gained >= 0.0;
    assert Ceiling(capacity, perUnit, slack, from, to) == capacity + gained + slack;
    if uses == [] {
    } else {
      var n := |uses| - 1;
      var u := uses[n];
      if u.at > to {
        WindowLaw(uses[..n], capacity, perUnit, slack, from, to);
      } else if u.at < from {
        NothingSpentEarlier(uses, capacity, perUnit, slack, from, to);
      } else {
        SpentPlusLeft(uses, capacity, perUnit, slack, from, to);
        ProductNonNegative(to - u.at, perUnit);
        Telescopes(from, u.at, to, perUnit);
      }
    }
  }
}
