/** The near-miss check of cmd/mindspec/root.go: a two-row edit distance, proved
    to be the length of a shortest sequence of single edits. */
module EditDistance {
  import opened Common

  // ----- The recurrence the two rows are filled by -----

  function Min3(x: nat, y: nat, z: nat): nat {
    if x <= y && x <= z then x else if y <= z then y else z
  }

  /** Edit distance by recursion on the last elements. */
  function Distance<T(==)>(a: seq<T>, b: seq<T>): nat
    decreases |a| + |b|
  {
    if a == [] then |b|
    else if b == [] then |a|
    else
      var a', b' := a[..|a| - 1], b[..|b| - 1];
      var cost := if a[|a| - 1] == b[|b| - 1] then 0 else 1;
      Min3(Distance(a, b') + 1, Distance(a', b) + 1, Distance(a', b') + cost)
  }

  // ----- The independent reference: scripts of single edits -----

  datatype Edit<T> =
    | Insert(at: nat, x: T)
    | Delete(at: nat)
    | Replace(at: nat, x: T)

  function Apply<T>(e: Edit<T>, s: seq<T>): Option<seq<T>> {
    match e
    case Insert(i, x) => if i <= |s| then Some(s[..i] + [x] + s[i..]) else None
    case Delete(i) => if i < |s| then Some(s[..i] + s[i + 1..]) else None
    case Replace(i, x) => if i < |s| then Some(s[..i] + [x] + s[i + 1..]) else None
  }

  /** Applies the edits one after the other; None when one is out of range. */
  function Run<T>(script: seq<Edit<T>>, s: seq<T>): Option<seq<T>> {
    if script == [] then Some(s)
    else match Apply(script[0], s)
      case None => None
      case Some(s') => Run(script[1..], s')
  }

  lemma {:induction false} RunConcat<T>(p: seq<Edit<T>>, q: seq<Edit<T>>, s: seq<T>)
    ensures Run(p + q, s) == match Run(p, s) case None => None case Some(m) => Run(q, m)
  {
    if p == [] {
      assert p + q == q;
    } else {
      assert (p + q)[0] == p[0] && (p + q)[1..] == p[1..] + q;
      if Apply(p[0], s).Some? { RunConcat(p[1..], q, Apply(p[0], s).value); }
    }
  }

  /** Shifts a script to the left part of a longer sequence. */
  lemma {:induction false} RunOnPrefix<T>(script: seq<Edit<T>>, s: seq<T>, t: seq<T>, tail: seq<T>)
    requires Run(script, s) == Some(t)
    ensures Run(script, s + tail) == Some(t + tail)
  {
    if script != [] {
      var s' := Apply(script[0], s).value;
      var i := script[0].at;
      assert (s + tail)[..i] == s[..i];
      assert (s + tail)[i..] == s[i..] + tail;
      if !script[0].Insert? { assert (s + tail)[i + 1..] == s[i + 1..] + tail; }
      assert Apply(script[0], s + tail).value == s' + tail;
      RunOnPrefix(script[1..], s', t, tail);
    }
  }

  // ----- A script of exactly that length exists -----

  lemma {:induction false} DeleteAll<T>(a: seq<T>) returns (script: seq<Edit<T>>)
    ensures |script| == |a| && Run(script, a) == Some([])
  {
    if a == [] {
      script := [];
    } else {
      var rest := DeleteAll(a[1..]);
      var e: Edit<T> := Delete(0);
      script := [e] + rest;
      assert Apply(e, a).value == a[1..];
    }
  }

  lemma {:induction false} InsertAll<T>(b: seq<T>) returns (script: seq<Edit<T>>)
    ensures |script| == |b| && Run(script, []) == Some(b)
  {
    if b == [] {
      script := [];
    } else {
      var b' := b[..|b| - 1];
      var rest := InsertAll(b');
      script := AppendEdit(rest, [], b', Insert(|b'|, b[|b| - 1]));
      assert Apply(Insert(|b'|, b[|b| - 1]), b').value == b;
    }
  }

  lemma {:induction false} AppendEdit<T>(p: seq<Edit<T>>, s: seq<T>, m: seq<T>, e: Edit<T>)
      returns (script: seq<Edit<T>>)
    requires Run(p, s) == Some(m) && Apply(e, m).Some?
    ensures |script| == |p| + 1 && Run(script, s) == Apply(e, m)
  {
    script := p + [e];
    RunConcat(p, [e], s);
    assert Run([e], m) == Apply(e, m) by { assert [e][1..] == []; }
  }

  lemma {:induction false} ShortestScriptExists<T>(a: seq<T>, b: seq<T>) returns (script: seq<Edit<T>>)
    ensures |script| == Distance(a, b)
    ensures Run(script, a) == Some(b)
    decreases |a| + |b|
  {
    if a == [] {
      script := InsertAll(b);
    } else if b == [] {
      script := DeleteAll(a);
    } else {
      var a', b' := a[..|a| - 1], b[..|b| - 1];
      var x, y := a[|a| - 1], b[|b| - 1];
      assert a == a' + [x] && b == b' + [y];
      if Distance(a, b) == Distance(a, b') + 1 {
        var p := ShortestScriptExists(a, b');
        script := AppendEdit(p, a, b', Insert(|b'|, y));
        assert Apply(Insert(|b'|, y), b').value == b;
      } else if Distance(a, b) == Distance(a', b) + 1 {
        var p := ShortestScriptExists(a', b);
        RunOnPrefix(p, a', b, [x]);
        var cut: Edit<T> := Delete(|b|);
        assert Apply(cut, b + [x]).value == b;
        script := AppendEdit(p, a, b + [x], cut);
      } else {
        var p := ShortestScriptExists(a', b');
        RunOnPrefix(p, a', b', [x]);
        if x == y {
          script := p;
        } else {
          script := AppendEdit(p, a, b' + [x], Replace(|b'|, y));
          assert Apply(Replace(|b'|, y), b' + [x]).value == b;
        }
      }
    }
  }

  // ----- No script is shorter -----

  /** The last row and column of the recursion. */
  lemma DistanceSnoc<T>(s: seq<T>, z: T, b: seq<T>, w: T)
    ensures Distance(s + [z], b + [w]) ==
      Min3(Distance(s + [z], b) + 1, Distance(s, b + [w]) + 1, Distance(s, b) + (if z == w then 0 else 1))
  {
    assert (s + [z])[..|s|] == s && (b + [w])[..|b|] == b;
  }

  lemma InsertLast<T>(s: seq<T>, b: seq<T>, w: T)
    ensures Distance(s, b + [w]) <= Distance(s, b) + 1
  {
  }

  lemma EmptyDistance<T>(s: seq<T>, b: seq<T>)
    ensures Distance(s, []) == |s| && Distance([], b) == |b|
    ensures |s| <= 1 && b != [] ==> Distance(s, b) <= |b|
  {
  }

  /** One edit changes the distance to any fixed target by at most one. The
      three forms of an edit are one shape: u and v differ in a middle piece of
      at most one element. */
  lemma {:induction false} OneEditLipschitz<T>(x: seq<T>, u: seq<T>, v: seq<T>, y: seq<T>, b: seq<T>)
    requires |u| <= 1 && |v| <= 1
    ensures Distance(x + u + y, b) <= 1 + Distance(x + v + y, b)
    decreases |x| + |y| + |b|
  {
    hide Distance;
    if b == [] || x + v + y == [] {
      EmptyDistance(x + u + y, b);
      EmptyDistance(x + v + y, b);
    } else {
      var b', w := b[..|b| - 1], b[|b| - 1];
      assert b == b' + [w];
      OneEditLipschitz(x, u, v, y, b');
      if y != [] {
        var y', z := y[..|y| - 1], y[|y| - 1];
        OneEditLipschitz(x, u, v, y', b);
        OneEditLipschitz(x, u, v, y', b');
        assert x + u + y == (x + u + y') + [z] && x + v + y == (x + v + y') + [z];
        SharedLast(x + u + y', x + v + y', z, b', w);
      } else {
        assert x + u + y == x + u && x + v + y == x + v;
        LastPiece(x, u, v, b', w);
      }
    }
  }

  /** The same last element on both sides. */
  lemma SharedLast<T>(s: seq<T>, t: seq<T>, z: T, b: seq<T>, w: T)
    requires Distance(s, b + [w]) <= 1 + Distance(t, b + [w])
    requires Distance(s, b) <= 1 + Distance(t, b)
    requires Distance(s + [z], b) <= 1 + Distance(t + [z], b)
    ensures Distance(s + [z], b + [w]) <= 1 + Distance(t + [z], b + [w])
  {
    hide Distance;
    DistanceSnoc(s, z, b, w);
    DistanceSnoc(t, z, b, w);
  }

  /** The differing piece at the end. */
  lemma LastPiece<T>(x: seq<T>, u: seq<T>, v: seq<T>, b: seq<T>, w: T)
    requires |u| <= 1 && |v| <= 1
    requires Distance(x + u, b) <= 1 + Distance(x + v, b)
    ensures x + v == [] || Distance(x + u, b + [w]) <= 1 + Distance(x + v, b + [w])
  {
    hide Distance;
    if u == [] {
      assert x + u == x;
      InsertLast(x, b, w);
    } else {
      assert u == [u[0]];
      DistanceSnoc(x, u[0], b, w);
    }
    if v == [] { assert x + v == x; } else { assert v == [v[0]]; DistanceSnoc(x, v[0], b, w); }
  }

  /** The same, for the three forms of an edit. */
  lemma EditLipschitz<T>(e: Edit<T>, a: seq<T>, m: seq<T>, b: seq<T>)
    requires Apply(e, a) == Some(m)
    ensures Distance(a, b) <= 1 + Distance(m, b)
  {
    var i := e.at;
    match e {
      case Insert(_, x) => Middle(a, m, a[..i], [], [x], a[i..], b);
      case Delete(_) => Middle(a, m, a[..i], [a[i]], [], a[i + 1..], b);
      case Replace(_, x) => Middle(a, m, a[..i], [a[i]], [x], a[i + 1..], b);
    }
  }

  lemma Middle<T>(a: seq<T>, m: seq<T>, x: seq<T>, u: seq<T>, v: seq<T>, y: seq<T>, b: seq<T>)
    requires |u| <= 1 && |v| <= 1 && a == x + u + y && m == x + v + y
    ensures Distance(a, b) <= 1 + Distance(m, b)
  {
    OneEditLipschitz(x, u, v, y, b);
  }

  lemma {:induction false} NoShorterScript<T>(script: seq<Edit<T>>, a: seq<T>, b: seq<T>)
    requires Run(script, a) == Some(b)
    ensures Distance(a, b) <= |script|
  {
    if script == [] {
      SelfDistance(a);
    } else {
      var m := Apply(script[0], a).value;
      NoShorterScript(script[1..], m, b);
      EditLipschitz(script[0], a, m, b);
    }
  }

  lemma {:induction false} SelfDistance<T>(a: seq<T>)
    ensures Distance(a, a) == 0
  {
    if a != [] { SelfDistance(a[..|a| - 1]); }
  }

  // ----- It is a metric -----

  lemma {:induction false} Symmetric<T>(a: seq<T>, b: seq<T>)
    ensures Distance(a, b) == Distance(b, a)
    decreases |a| + |b|
  {
    if a != [] && b != [] {
      var a', b' := a[..|a| - 1], b[..|b| - 1];
      Symmetric(a, b');
      Symmetric(a', b);
      Symmetric(a', b');
    }
  }

  lemma {:induction false} ZeroExactlyWhenEqual<T>(a: seq<T>, b: seq<T>)
    ensures Distance(a, b) == 0 <==> a == b
  {
    SelfDistance(a);
    if Distance(a, b) == 0 {
      var script := ShortestScriptExists(a, b);
    }
  }

  lemma {:induction false} Triangle<T>(a: seq<T>, b: seq<T>, c: seq<T>)
    ensures Distance(a, c) <= Distance(a, b) + Distance(b, c)
  {
    var p := ShortestScriptExists(a, b);
    var q := ShortestScriptExists(b, c);
    RunConcat(p, q, a);
    NoShorterScript(p + q, a, c);
  }

  // ----- The loops -----

  /** The table entry for the first i elements of a and the first j of b. */
  function Cell(a: string, b: string, i: nat, j: nat): nat
    requires i <= |a| && j <= |b|
  {
    Distance(a[..i], b[..j])
  }

  lemma CellStep(a: string, b: string, i: nat, j: nat)
    requires 1 <= i <= |a| && 1 <= j <= |b|
    ensures Cell(a, b, i, j) == Min3(Cell(a, b, i, j - 1) + 1, Cell(a, b, i - 1, j) + 1,
                                     Cell(a, b, i - 1, j - 1) + (if a[i - 1] == b[j - 1] then 0 else 1))
  {
    assert a[..i][..i - 1] == a[..i - 1] && b[..j][..j - 1] == b[..j - 1];
  }

  lemma CellBorders(a: string, b: string)
    ensures forall i | 0 <= i <= |a| :: Cell(a, b, i, 0) == i
    ensures forall j | 0 <= j <= |b| :: Cell(a, b, 0, j) == j
    ensures Cell(a, b, |a|, |b|) == Distance(a, b)
  {
    assert a[..|a|] == a && b[..|b|] == b;
  }

  /** levenshtein: rows prev and cur, swapped after each row of the table. */
  method Levenshtein(a: string, b: string) returns (d: nat)
    ensures d == Distance(a, b)
  {
    CellBorders(a, b);
    var n := |b|;
    var prev := new nat[n + 1](j => j);
    var cur := new nat[n + 1](j => 0);
    for i := 1 to |a| + 1
      invariant prev != cur && fresh(prev) && fresh(cur)
      invariant prev.Length == cur.Length == n + 1
      invariant forall j :: 0 <= j <= n ==> prev[j] == Cell(a, b, i - 1, j)
    {
      cur[0] := i;
      for j := 1 to n + 1
        invariant forall k :: 0 <= k <= n ==> prev[k] == Cell(a, b, i - 1, k)
        invariant forall k :: 0 <= k < j ==> cur[k] == Cell(a, b, i, k)
      {
        var cost := 1;
        if a[i - 1] == b[j - 1] { cost := 0; }
        CellStep(a, b, i, j);
        cur[j] := Min3(cur[j - 1] + 1, prev[j] + 1, prev[j - 1] + cost);
      }
      prev, cur := cur, prev;
    }
    d := prev[n];
  }

  /** At most d single edits lead from a to b. */
  ghost predicate Within<T(!new)>(a: seq<T>, b: seq<T>, d: nat) {
    exists script :: |script| <= d && Run(script, a) == Some(b)
  }

  /** The distance is the length of a shortest edit script. */
  lemma ShortestScript<T(!new)>(a: seq<T>, b: seq<T>, d: nat)
    ensures d >= Distance(a, b) <==> Within(a, b, d)
  {
    var shortest := ShortestScriptExists(a, b);
    if Within(a, b, d) {
      var script: seq<Edit<T>> :| |script| <= d && Run(script, a) == Some(b);
      NoShorterScript(script, a, b);
    }
  }

  const APPROVE := "approve"

  /** isApproveNearMiss on the lower-cased name: at most two single edits away. */
  method IsApproveNearMiss(lowered: string) returns (near: bool)
    ensures near <==> Within(lowered, APPROVE, 2)
    ensures near <==> exists script :: |script| <= 2 && Run(script, lowered) == Some("approve")
  {
    var d := Levenshtein(lowered, APPROVE);
    ShortestScript(lowered, APPROVE, 2);
    near := d <= 2;
  }
}
