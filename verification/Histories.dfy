/** What happened so far, as a list of events: counting, and what happened last. */
module Histories {
  import opened Bytes

  function Count<T>(p: T -> bool, past: seq<T>): nat {
    if past == [] then 0 else Count(p, past[..|past| - 1]) + if p(past[|past| - 1]) then 1 else 0
  }

  lemma CountSnoc<T>(p: T -> bool, past: seq<T>, e: T)
    ensures Count(p, past + [e]) == Count(p, past) + if p(e) then 1 else 0
  {
    SplitSum(past, [e]);
  }

  /** A `p` event happened and no `q` event after it. */
  predicate Since<T>(p: T -> bool, q: T -> bool, past: seq<T>) {
    exists k :: 0 <= k < |past| && p(past[k]) && forall m :: k < m < |past| ==> !q(past[m])
  }

  lemma SinceSnoc<T>(p: T -> bool, q: T -> bool, past: seq<T>, e: T)
    ensures Since(p, q, past + [e]) <==> p(e) || (Since(p, q, past) && !q(e))
  {
    var s := past + [e];
    var n := |past|;
    assert forall i :: 0 <= i < n ==> s[i] == past[i];
    if p(e) {
      assert p(s[n]);
    } else {
      if Since(p, q, s) {
        var k :| 0 <= k < |s| && p(s[k]) && forall m :: k < m < |s| ==> !q(s[m]);
        assert p(past[k]) && !q(s[n]);
      }
      if Since(p, q, past) && !q(e) {
        var k :| 0 <= k < n && p(past[k]) && forall m :: k < m < n ==> !q(past[m]);
        assert p(s[k]);
      }
    }
  }

  lemma {:induction false} CountCons<T>(p: T -> bool, e: T, rest: seq<T>)
    ensures Count(p, [e] + rest) == (if p(e) then 1 else 0) + Count(p, rest)
    decreases |rest|
  {
    if rest == [] {
      assert [e] + rest == [e] && [e][..0] == [];
    } else {
      var last := rest[|rest| - 1];
      var init := rest[..|rest| - 1];
      CountCons(p, e, init);
      assert rest == init + [last];
      assert [e] + rest == ([e] + init) + [last];
      CountSnoc(p, [e] + init, last);
      CountSnoc(p, init, last);
    }
  }
}
