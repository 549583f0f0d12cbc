/**
 The distance `levenshtein` computes, as a recursion over the last bytes of both strings, and what it means:
 the length of a shortest list of one-byte insertions, deletions and substitutions, each at any position.
 */
module EditDistance {
  import opened Base

  /** One edit of a whole string, at a position of that string. */
  datatype Edit =
    | Insert(pos: nat, c: byte)
    | Delete(pos: nat)
    | Substitute(pos: nat, c: byte)

  predicate Applicable(e: Edit, s: Bytes) {
    if e.Insert? then e.pos <= |s| else e.pos < |s|
  }

  function Apply(e: Edit, s: Bytes): Bytes
    requires Applicable(e, s)
  {
    match e
    case Insert(i, c) => s[..i] + [c] + s[i..]
    case Delete(i) => s[..i] + s[i + 1..]
    case Substitute(i, c) => s[..i] + [c] + s[i + 1..]
  }

  /** The edits of `script`, one after the other, turn `a` into `b`. */
  predicate Transforms(script: seq<Edit>, a: Bytes, b: Bytes) {
    if script == [] then
      a == b
    else
      Applicable(script[0], a) && Transforms(script[1..], Apply(script[0], a), b)
  }

  /** `n` is the length of a shortest script from `a` to `b`. */
  ghost predicate IsEditDistance(a: Bytes, b: Bytes, n: nat) {
    && (exists script :: Transforms(script, a, b) && |script| == n)
    && (forall script :: Transforms(script, a, b) ==> n <= |script|)
  }

  function Min3(x: nat, y: nat, z: nat): nat {
    var m := if y < x then y else x;
    if z < m then z else m
  }

  function DropLast(s: Bytes): Bytes
    requires s != []
  {
    s[..|s| - 1]
  }

  function Last(s: Bytes): byte
    requires s != []
  {
    s[|s| - 1]
  }

  /** The value of the table cell for the prefixes `a` and `b`. */
  function Dist(a: Bytes, b: Bytes): nat
    decreases |a| + |b|
  {
    if a == [] then
      |b|
    else if b == [] then
      |a|
    else
      Min3(Dist(DropLast(a), b) + 1,
           Dist(a, DropLast(b)) + 1,
           Dist(DropLast(a), DropLast(b)) + if Last(a) == Last(b) then 0 else 1)
  }

  // ----- No script is shorter

  /** Changing one byte of the left string, or adding or dropping one, moves the distance by at most one. */
  lemma {:induction false} Lipschitz(p: Bytes, u: Bytes, v: Bytes, q: Bytes, b: Bytes)
    requires |u| <= 1 && |v| <= 1
    ensures Dist(p + u + q, b) <= Dist(p + v + q, b) + 1
    decreases |q| + |b|, |u| + |v|
  {
    var s, t := p + u + q, p + v + q;
    if b == [] {
    } else if q != [] {
      assert DropLast(s) == p + u + DropLast(q) && DropLast(t) == p + v + DropLast(q);
      assert Last(s) == Last(q) == Last(t);
      Lipschitz(p, u, v, DropLast(q), b);
      Lipschitz(p, u, v, q, DropLast(b));
      Lipschitz(p, u, v, DropLast(q), DropLast(b));
    } else {
      assert s == p + u && t == p + v;
      LipschitzAtEnd(p, u, v, b);
    }
  }

  lemma {:induction false} LipschitzAtEnd(p: Bytes, u: Bytes, v: Bytes, b: Bytes)
    requires |u| <= 1 && |v| <= 1
    ensures Dist(p + u, b) <= Dist(p + v, b) + 1
    decreases |b|
  {
    if b != [] {
      LipschitzAtEnd(p, u, v, DropLast(b));
      LipschitzAtEnd(p, [], v, DropLast(b));
      LipschitzAtEnd(p, u, [], DropLast(b));
      assert p + [] == p;
      if u != [] {
        assert DropLast(p + u) == p;
      }
      if v != [] {
        assert DropLast(p + v) == p;
      }
    }
  }

  lemma ApplyMovesByOne(e: Edit, s: Bytes, b: Bytes)
    requires Applicable(e, s)
    ensures Dist(s, b) <= Dist(Apply(e, s), b) + 1
    ensures Dist(Apply(e, s), b) <= Dist(s, b) + 1
  {
    var p := s[..e.pos];
    match e
    case Insert(i, c) =>
      assert s == p + [] + s[i..];
      Lipschitz(p, [], [c], s[i..], b);
      Lipschitz(p, [c], [], s[i..], b);
    case Delete(i) =>
      assert s == p + [s[i]] + s[i + 1..] && Apply(e, s) == p + [] + s[i + 1..];
      Lipschitz(p, [s[i]], [], s[i + 1..], b);
      Lipschitz(p, [], [s[i]], s[i + 1..], b);
    case Substitute(i, c) =>
      assert s == p + [s[i]] + s[i + 1..];
      Lipschitz(p, [s[i]], [c], s[i + 1..], b);
      Lipschitz(p, [c], [s[i]], s[i + 1..], b);
  }

  lemma {:induction false} DistSelf(a: Bytes)
    ensures Dist(a, a) == 0
  {
    if a != [] {
      DistSelf(DropLast(a));
    }
  }

  lemma {:induction false} NoShorterScript(script: seq<Edit>, a: Bytes, b: Bytes)
    requires Transforms(script, a, b)
    ensures Dist(a, b) <= |script|
  {
    if script == [] {
      DistSelf(a);
    } else {
      NoShorterScript(script[1..], Apply(script[0], a), b);
      ApplyMovesByOne(script[0], a, b);
    }
  }

  // ----- A script of that length exists

  lemma {:induction false} TransformsConcat(s: seq<Edit>, t: seq<Edit>, a: Bytes, b: Bytes, c: Bytes)
    requires Transforms(s, a, b) && Transforms(t, b, c)
    ensures Transforms(s + t, a, c)
  {
    hide Apply, Applicable;
    if s == [] {
      assert s + t == t;
    } else {
      assert (s + t)[1..] == s[1..] + t;
      TransformsConcat(s[1..], t, Apply(s[0], a), b, c);
    }
  }

  lemma ApplyWithTail(e: Edit, a: Bytes, y: byte)
    requires Applicable(e, a)
    ensures Applicable(e, a + [y]) && Apply(e, a + [y]) == Apply(e, a) + [y]
  {
  }

  /** A script never looks past the end of the string it was made for. */
  lemma {:induction false} TransformsWithTail(script: seq<Edit>, a: Bytes, b: Bytes, y: byte)
    requires Transforms(script, a, b)
    ensures Transforms(script, a + [y], b + [y])
  {
    hide Apply, Applicable;
    if script != [] {
      var e := script[0];
      ApplyWithTail(e, a, y);
      TransformsWithTail(script[1..], Apply(e, a), b, y);
    }
  }

  lemma SingleEdit(e: Edit, a: Bytes)
    requires Applicable(e, a)
    ensures Transforms([e], a, Apply(e, a))
  {
    assert [e][1..] == [];
  }

  lemma DeleteLastFirst(a: Bytes, b: Bytes, rest: seq<Edit>) returns (script: seq<Edit>)
    requires a != [] && Transforms(rest, DropLast(a), b)
    ensures Transforms(script, a, b) && |script| == |rest| + 1
  {
    var e := Delete(|a| - 1);
    assert Apply(e, a) == DropLast(a);
    SingleEdit(e, a);
    script := [e] + rest;
    TransformsConcat([e], rest, a, DropLast(a), b);
  }

  lemma InsertLastAfter(a: Bytes, b: Bytes, rest: seq<Edit>) returns (script: seq<Edit>)
    requires b != [] && Transforms(rest, a, DropLast(b))
    ensures Transforms(script, a, b) && |script| == |rest| + 1
  {
    var e := Insert(|b| - 1, Last(b));
    assert Apply(e, DropLast(b)) == b;
    SingleEdit(e, DropLast(b));
    script := rest + [e];
    TransformsConcat(rest, [e], a, DropLast(b), b);
  }

  lemma SubstituteLast(a: Bytes, y: byte)
    requires a != []
    ensures Apply(Substitute(|a| - 1, y), a) == DropLast(a) + [y]
    ensures DropLast(a) + [Last(a)] == a
  {
  }

  lemma MatchLast(a: Bytes, b: Bytes, rest: seq<Edit>) returns (script: seq<Edit>)
    requires a != [] && b != [] && Transforms(rest, DropLast(a), DropLast(b))
    ensures Transforms(script, a, b) && |script| == |rest| + if Last(a) == Last(b) then 0 else 1
  {
    TransformsWithTail(rest, DropLast(a), DropLast(b), Last(b));
    SubstituteLast(a, Last(b));
    SubstituteLast(b, Last(b));
    hide Apply, Applicable, DropLast;
    if Last(a) == Last(b) {
      script := rest;
    } else {
      var e := Substitute(|a| - 1, Last(b));
      SingleEdit(e, a);
      script := [e] + rest;
      TransformsConcat([e], rest, a, DropLast(a) + [Last(b)], b);
    }
  }

  /** A script as long as the distance, read off the choices the table makes. */
  lemma {:induction false} ShortestScript(a: Bytes, b: Bytes) returns (script: seq<Edit>)
    ensures Transforms(script, a, b) && |script| == Dist(a, b)
    decreases |a| + |b|
  {
    if a == [] && b == [] {
      script := [];
    } else if b == [] || (a != [] && Dist(a, b) == Dist(DropLast(a), b) + 1) {
      var rest := ShortestScript(DropLast(a), b);
      script := DeleteLastFirst(a, b, rest);
    } else if a == [] || Dist(a, b) == Dist(a, DropLast(b)) + 1 {
      var rest := ShortestScript(a, DropLast(b));
      script := InsertLastAfter(a, b, rest);
    } else {
      var rest := ShortestScript(DropLast(a), DropLast(b));
      script := MatchLast(a, b, rest);
    }
  }

  /** The recursion computes the length of a shortest script, and nothing else does. */
  lemma DistIsEditDistance(a: Bytes, b: Bytes, n: nat)
    ensures IsEditDistance(a, b, n) <==> n == Dist(a, b)
  {
    var best := ShortestScript(a, b);
    forall script | Transforms(script, a, b)
      ensures Dist(a, b) <= |script|
    {
      NoShorterScript(script, a, b);
    }
  }

  // ----- Metric laws

  /** What undoes `e` once it has been applied to `s`. */
  function Undo(e: Edit, s: Bytes): Edit
    requires Applicable(e, s)
  {
    match e
    case Insert(i, _) => Delete(i)
    case Delete(i) => Insert(i, s[i])
    case Substitute(i, _) => Substitute(i, s[i])
  }

  lemma UndoInverts(e: Edit, s: Bytes)
    requires Applicable(e, s)
    ensures Applicable(Undo(e, s), Apply(e, s)) && Apply(Undo(e, s), Apply(e, s)) == s
  {
    var (i, t) := (e.pos, Apply(e, s));
    match e
    case Insert(_, c) =>
      assert t[..i] == s[..i] && t[i + 1..] == s[i..];
      assert s[..i] + s[i..] == s;
    case Delete(_) =>
      assert t[..i] == s[..i] && t[i..] == s[i + 1..];
      assert s[..i] + [s[i]] + s[i + 1..] == s;
    case Substitute(_, c) =>
      assert t[..i] == s[..i] && t[i + 1..] == s[i + 1..];
      assert s[..i] + [s[i]] + s[i + 1..] == s;
  }

  lemma {:induction false} ReverseScript(script: seq<Edit>, a: Bytes, b: Bytes) returns (back: seq<Edit>)
    requires Transforms(script, a, b)
    ensures Transforms(back, b, a) && |back| == |script|
  {
    hide Apply, Applicable, Undo;
    if script == [] {
      back := [];
    } else {
      var e := script[0];
      var next := Apply(e, a);
      var rest := ReverseScript(script[1..], next, b);
      UndoInverts(e, a);
      var undo := Undo(e, a);
      SingleEdit(undo, next);
      TransformsConcat(rest, [undo], b, next, a);
      back := rest + [undo];
    }
  }

  lemma {:induction false} ZeroIffEqual(a: Bytes, b: Bytes)
    ensures Dist(a, b) == 0 <==> a == b
  {
    if a == b {
      DistSelf(a);
    } else {
      var script := ShortestScript(a, b);
    }
  }

  lemma {:induction false} Symmetric(a: Bytes, b: Bytes)
    ensures Dist(a, b) == Dist(b, a)
  {
    var there := ShortestScript(a, b);
    var thereReversed := ReverseScript(there, a, b);
    NoShorterScript(thereReversed, b, a);
    var back := ShortestScript(b, a);
    var backReversed := ReverseScript(back, b, a);
    NoShorterScript(backReversed, a, b);
  }

  lemma {:induction false} TriangleInequality(a: Bytes, b: Bytes, c: Bytes)
    ensures Dist(a, c) <= Dist(a, b) + Dist(b, c)
  {
    var first := ShortestScript(a, b);
    var second := ShortestScript(b, c);
    TransformsConcat(first, second, a, b, c);
    NoShorterScript(first + second, a, c);
  }
}
