/** Notions that several modules share. */
module Common {

  datatype Option<+T> = None | Some(value: T)

  predicate NoRepeats<T(==)>(s: seq<T>) {
    forall i, j | 0 <= i < j < |s| :: s[i] != s[j]
  }

  /** The first position of x in s, or -1. */
  function IndexOf<T(==)>(s: seq<T>, x: T): (i: int)
    ensures -1 <= i < |s|
    ensures i == -1 <==> x !in s
    ensures i >= 0 ==> s[i] == x && x !in s[..i]
  {
    if s == [] then -1
    else if s[0] == x then 0
    else
      var i := IndexOf(s[1..], x);
      if i == -1 then -1 else i + 1
  }

  /** s without any x. */
  function Without<T(==)>(s: seq<T>, x: T): seq<T> {
    if s == [] then [] else (if s[0] == x then [] else [s[0]]) + Without(s[1..], x)
  }

  /** What stands before another in left does so in all. */
  ghost predicate SameOrder<T>(all: seq<T>, left: seq<T>) {
    forall i, j, x, y | 0 <= i < j < |left| && 0 <= x < |all| && 0 <= y < |all| && all[x] == left[i] && all[y] == left[j] ::
      x < y
  }

  lemma OrderGrows<T>(front: seq<T>, last: T, left: seq<T>)
    requires NoRepeats(front + [last]) && SameOrder(front, left)
    requires forall i | 0 <= i < |left| :: left[i] in front
    ensures SameOrder(front + [last], left) && SameOrder(front + [last], left + [last])
  {
    var ls := front + [last];
    assert ls[|front|] == last;
    assert forall x | 0 <= x < |front| :: ls[x] == front[x] && ls[x] != ls[|front|];
  }

  /** A set with one more element, if it is included. */
  lemma OneMoreIn(fewer: set<nat>, those: set<nat>, x: nat, included: bool)
    requires x !in fewer && forall i :: i in those <==> i in fewer || (included && i == x)
    ensures |those| == |fewer| + if included then 1 else 0
  {
    assert those == if included then fewer + {x} else fewer;
  }
}
