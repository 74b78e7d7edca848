/** Lists of findings, each at the index of the log entry it concerns, as both chain
    checkers build them. */
module Findings {
  datatype Finding<C> = Finding(index: nat, code: C)

  function Located<C>(i: nat, codes: seq<C>): (r: seq<Finding<C>>)
    ensures |r| == |codes|
  {
    seq(|codes|, k requires 0 <= k < |codes| => Finding(i, codes[k]))
  }

  /** The codes of the first `n` entries, each at its index, in order. */
  function Spread<C>(codes: seq<seq<C>>, n: nat): (r: seq<Finding<C>>)
    requires n <= |codes|
  {
    if n == 0 then [] else Spread(codes, n - 1) + Located(n - 1, codes[n - 1])
  }

  /** The findings below an index. */
  function Preceding<C>(findings: seq<Finding<C>>, n: nat): (r: seq<Finding<C>>)
  {
    if findings == [] then []
    else
      var last := findings[|findings| - 1];
      Preceding(findings[..|findings| - 1], n) + if last.index < n then [last] else []
  }

  lemma LocatedHas<C>(at: nat, codes: seq<C>, i: nat, code: C)
    ensures Finding(i, code) in Located(at, codes) <==> i == at && code in codes
  {
    if i == at && code in codes {
      var k :| 0 <= k < |codes| && codes[k] == code;
      assert Located(at, codes)[k] == Finding(i, code);
    }
  }

  /** A code is found at an index exactly if the entry there has it. */
  lemma {:induction false} SpreadHas<C>(codes: seq<seq<C>>, n: nat, i: nat, code: C)
    requires n <= |codes|
    ensures Finding(i, code) in Spread(codes, n) <==> i < n && code in codes[i]
    decreases n
  {
    if n > 0 {
      SpreadHas(codes, n - 1, i, code);
      LocatedHas(n - 1, codes[n - 1], i, code);
    }
  }

  lemma {:induction false} SpreadNothing<C>(codes: seq<seq<C>>, n: nat)
    requires n <= |codes| && forall i | 0 <= i < |codes| :: codes[i] == []
    ensures Spread(codes, n) == []
    decreases n
  {
    if n > 0 {
      SpreadNothing(codes, n - 1);
    }
  }

  lemma {:induction false} PrecedingConcat<C>(a: seq<Finding<C>>, b: seq<Finding<C>>, n: nat)
    ensures Preceding(a + b, n) == Preceding(a, n) + Preceding(b, n)
    decreases |b|
  {
    if b == [] {
      assert a + b == a;
    } else {
      assert (a + b)[..|a + b| - 1] == a + b[..|b| - 1];
      PrecedingConcat(a, b[..|b| - 1], n);
    }
  }

  lemma {:induction false} PrecedingUniform<C>(findings: seq<Finding<C>>, i: nat, n: nat)
    requires forall k | 0 <= k < |findings| :: findings[k].index == i
    ensures Preceding(findings, n) == if i < n then findings else []
    decreases |findings|
  {
    if findings != [] {
      PrecedingUniform(findings[..|findings| - 1], i, n);
      assert findings == findings[..|findings| - 1] + [findings[|findings| - 1]];
    }
  }

  lemma {:induction false} SpreadPreceding<C>(codes: seq<seq<C>>, m: nat, n: nat)
    requires m <= |codes| && n <= |codes|
    ensures Preceding(Spread(codes, m), n) == Spread(codes, if m < n then m else n)
    decreases m
  {
    if m > 0 {
      SpreadPreceding(codes, m - 1, n);
      PrecedingConcat(Spread(codes, m - 1), Located(m - 1, codes[m - 1]), n);
      PrecedingUniform(Located(m - 1, codes[m - 1]), m - 1, n);
    }
  }

  lemma {:induction false} SpreadPrefix<C>(codes: seq<seq<C>>, n: nat, m: nat)
    requires m <= n <= |codes|
    ensures Spread(codes[..n], m) == Spread(codes, m)
    decreases m
  {
    if m > 0 {
      SpreadPrefix(codes, n, m - 1);
    }
  }
}
