/** The edit distance that ranks suggestions for a misspelt configuration file. */
module EditDistance {
  import opened Integers

  function Init(s: string): string
    requires s != []
  {
    s[..|s| - 1]
  }

  function Last(s: string): char
    requires s != []
  {
    s[|s| - 1]
  }

  function Differ(c: char, d: char): nat { if c != d then 1 else 0 }

  /** The distance by its recursion over the last characters. */
  function Distance(a: string, b: string): nat
    decreases |a| + |b|
  {
    if a == [] then |b|
    else if b == [] then |a|
    else Min(Distance(Init(a), Init(b)) + Differ(Last(a), Last(b)),
             Min(Distance(Init(a), b) + 1, Distance(a, Init(b)) + 1))
  }

  // ----------------------------------------------------------------- edit scripts

  datatype Edit = Keep(c: char) | Substitute(before: char, after: char) | Insert(added: char) | Delete(removed: char)

  /** The text a script reads and the text it writes. */
  function Reads(e: Edit): string {
    match e
    case Keep(c) => [c]
    case Substitute(c, _) => [c]
    case Insert(_) => []
    case Delete(c) => [c]
  }

  function Writes(e: Edit): string {
    match e
    case Keep(c) => [c]
    case Substitute(_, d) => [d]
    case Insert(d) => [d]
    case Delete(_) => []
  }

  function Source(script: seq<Edit>): string {
    if script == [] then [] else Source(script[..|script| - 1]) + Reads(script[|script| - 1])
  }

  function Target(script: seq<Edit>): string {
    if script == [] then [] else Target(script[..|script| - 1]) + Writes(script[|script| - 1])
  }

  /** Keeping a character is free, everything else costs one. */
  function Cost(script: seq<Edit>): nat {
    if script == [] then 0
    else Cost(script[..|script| - 1]) + if script[|script| - 1].Keep? then 0 else 1
  }

  predicate Turns(script: seq<Edit>, a: string, b: string) {
    Source(script) == a && Target(script) == b
  }

  lemma SnocFacts(s: string, c: char)
    ensures s + [c] != [] && Init(s + [c]) == s && Last(s + [c]) == c
  {
  }

  lemma DistanceSteps(a: string, b: string, c: char, d: char)
    ensures Distance(a + [c], b + [d]) <= Distance(a, b) + Differ(c, d)
    ensures Distance(a + [c], b) <= Distance(a, b) + 1
    ensures Distance(a, b + [d]) <= Distance(a, b) + 1
  {
    SnocFacts(a, c);
    SnocFacts(b, d);
  }

  lemma Extend(script: seq<Edit>, e: Edit)
    ensures Source(script + [e]) == Source(script) + Reads(e)
    ensures Target(script + [e]) == Target(script) + Writes(e)
    ensures Cost(script + [e]) == Cost(script) + if e.Keep? then 0 else 1
  {
    assert (script + [e])[..|script|] == script;
  }

  lemma NoEdits()
    ensures Source([]) == [] && Target([]) == [] && Distance([], []) == Cost([]) == 0
  {
  }

  lemma EditSteps(a: string, b: string, e: Edit)
    ensures Distance(a + Reads(e), b + Writes(e)) <= Distance(a, b) + if e.Keep? then 0 else 1
  {
    hide Distance;
    assert a + [] == a && b + [] == b;
    match e
    case Keep(c) => DistanceSteps(a, b, c, c);
    case Substitute(c, d) => DistanceSteps(a, b, c, d);
    case Insert(d) => DistanceSteps(a, b, d, d);
    case Delete(c) => DistanceSteps(a, b, c, c);
  }

  /** No script that turns one text into another is cheaper than their distance. */
  lemma {:induction false} DistanceIsLowerBound(script: seq<Edit>)
    ensures Distance(Source(script), Target(script)) <= Cost(script)
  {
    hide Distance, Source, Target, Cost, Reads, Writes;
    if script == [] {
      NoEdits();
    } else {
      var before, last := script[..|script| - 1], script[|script| - 1];
      assert script == before + [last];
      DistanceIsLowerBound(before);
      Extend(before, last);
      EditSteps(Source(before), Target(before), last);
    }
  }

  lemma Rebuild(s: string)
    requires s != []
    ensures Init(s) + [Last(s)] == s
  {
  }

  /** Some script that turns one text into another costs exactly their distance. */
  lemma {:induction false} CheapestScript(a: string, b: string) returns (script: seq<Edit>)
    ensures Turns(script, a, b) && Cost(script) == Distance(a, b)
    decreases |a| + |b|
  {
    if a == [] && b == [] {
      script := [];
    } else if a == [] {
      Rebuild(b);
      script := CheapestScript(a, Init(b));
      Extend(script, Insert(Last(b)));
      script := script + [Insert(Last(b))];
    } else if b == [] {
      Rebuild(a);
      script := CheapestScript(Init(a), b);
      Extend(script, Delete(Last(a)));
      script := script + [Delete(Last(a))];
    } else {
      Rebuild(a);
      Rebuild(b);
      if Distance(a, b) == Distance(Init(a), Init(b)) + Differ(Last(a), Last(b)) {
        var e := if Last(a) == Last(b) then Keep(Last(a)) else Substitute(Last(a), Last(b));
        script := CheapestScript(Init(a), Init(b));
        Extend(script, e);
        script := script + [e];
      } else if Distance(a, b) == Distance(Init(a), b) + 1 {
        script := CheapestScript(Init(a), b);
        Extend(script, Delete(Last(a)));
        script := script + [Delete(Last(a))];
      } else {
        script := CheapestScript(a, Init(b));
        Extend(script, Insert(Last(b)));
        script := script + [Insert(Last(b))];
      }
    }
  }

  /** The distance is the least cost of all scripts that turn one text into the other. */
  lemma DistanceIsLeastCost(a: string, b: string)
    ensures forall script :: Turns(script, a, b) ==> Distance(a, b) <= Cost(script)
    ensures exists script :: Turns(script, a, b) && Cost(script) == Distance(a, b)
  {
    forall script | Turns(script, a, b)
      ensures Distance(a, b) <= Cost(script)
    {
      DistanceIsLowerBound(script);
    }
    var script := CheapestScript(a, b);
  }

  // ------------------------------------------------------------------- a metric

  lemma {:induction false} Bounds(a: string, b: string)
    ensures |a| - |b| <= Distance(a, b) && |b| - |a| <= Distance(a, b)
    ensures Distance(a, b) <= if |a| <= |b| then |b| else |a|
    decreases |a| + |b|
  {
    if a != [] && b != [] {
      Bounds(Init(a), Init(b));
      Bounds(Init(a), b);
      Bounds(a, Init(b));
    }
  }

  lemma {:induction false} ZeroIffEqual(a: string, b: string)
    ensures Distance(a, b) == 0 <==> a == b
    decreases |a| + |b|
  {
    if a != [] && b != [] {
      ZeroIffEqual(Init(a), Init(b));
      Rebuild(a);
      Rebuild(b);
    }
  }

  lemma {:induction false} Symmetric(a: string, b: string)
    ensures Distance(a, b) == Distance(b, a)
    decreases |a| + |b|
  {
    if a != [] && b != [] {
      Symmetric(Init(a), Init(b));
      Symmetric(Init(a), b);
      Symmetric(a, Init(b));
    }
  }

  /** The last step of a distance: at most each of three ways, and exactly one of them. */
  lemma LastStep(a: string, b: string)
    requires a != [] && b != []
    ensures Distance(a, b) <= Distance(Init(a), Init(b)) + Differ(Last(a), Last(b))
    ensures Distance(a, b) <= Distance(Init(a), b) + 1
    ensures Distance(a, b) <= Distance(a, Init(b)) + 1
    ensures Distance(a, b) == Distance(Init(a), Init(b)) + Differ(Last(a), Last(b))
      || Distance(a, b) == Distance(Init(a), b) + 1 || Distance(a, b) == Distance(a, Init(b)) + 1
  {
  }

  lemma {:induction false} TriangleInequality(a: string, b: string, c: string)
    ensures Distance(a, c) <= Distance(a, b) + Distance(b, c)
    decreases |a| + |b| + |c|
  {
    hide Distance;
    Bounds(a, b);
    Bounds(b, c);
    Bounds(a, c);
    if a != [] && b != [] && c != [] {
      LastStep(a, b);
      LastStep(b, c);
      LastStep(a, c);
      TriangleInequality(Init(a), Init(b), Init(c));
      TriangleInequality(Init(a), b, c);
      TriangleInequality(a, b, Init(c));
      TriangleInequality(a, Init(b), Init(c));
      TriangleInequality(Init(a), Init(b), c);
      TriangleInequality(a, Init(b), c);
    }
  }

  // ------------------------------------------------------------------- the table

  /** The entry of the table for two prefixes. */
  ghost predicate Correct(dis: map<(nat, nat), nat>, a: string, b: string, i: nat, j: nat)
    requires i <= |a| && j <= |b|
  {
    (i, j) in dis && dis[(i, j)] == Distance(a[..i], b[..j])
  }

  /** The rows above i, and row i up to column j, are filled in correctly, as is the border. */
  ghost predicate Filled(dis: map<(nat, nat), nat>, a: string, b: string, i: nat, j: nat) {
    forall p: nat, q: nat :: p <= |a| && q <= |b| && (p == 0 || q == 0 || p < i || (p == i && q < j)) ==> Correct(dis, a, b, p, q)
  }

  lemma {:induction false} DistanceOfLast(a: string, b: string)
    requires a != [] && b != []
    ensures Distance(a, b) == Min(Distance(Init(a), Init(b)) + Differ(Last(a), Last(b)), Min(Distance(Init(a), b) + 1, Distance(a, Init(b)) + 1))
  {
  }

  lemma Entry(a: string, b: string, i: nat, j: nat)
    requires 1 <= i <= |a| && 1 <= j <= |b|
    ensures Distance(a[..i], b[..j]) == Min(Distance(a[..i - 1], b[..j - 1]) + Differ(a[i - 1], b[j - 1]),
      Min(Distance(a[..i - 1], b[..j]) + 1, Distance(a[..i], b[..j - 1]) + 1))
  {
    hide Distance;
    assert Init(a[..i]) == a[..i - 1] && Init(b[..j]) == b[..j - 1];
    DistanceOfLast(a[..i], b[..j]);
  }

  /** The table of all prefix distances, filled row by row. */
  method ComputeDistance(str1: string, str2: string) returns (distance: nat)
    ensures distance == Distance(str1, str2)
  {
    hide Distance;
    var dis: map<(nat, nat), nat> := map[];
    for i := 0 to |str1| + 1
      invariant forall p: nat :: p < i ==> Correct(dis, str1, str2, p, 0)
    {
      Border(str1, str2, i, 0);
      ghost var previous := dis;
      dis := dis[(i, 0) := i];
      forall p: nat | p < i
        ensures Correct(dis, str1, str2, p, 0)
      {
        assert Correct(previous, str1, str2, p, 0);
      }
    }
    for j := 0 to |str2| + 1
      invariant forall p: nat :: p <= |str1| ==> Correct(dis, str1, str2, p, 0)
      invariant forall q: nat :: q < j ==> Correct(dis, str1, str2, 0, q)
    {
      Border(str1, str2, 0, j);
      ghost var previous := dis;
      dis := dis[(0, j) := j];
      forall p: nat | p <= |str1|
        ensures Correct(dis, str1, str2, p, 0)
      {
        assert Correct(previous, str1, str2, p, 0);
      }
      forall q: nat | q < j
        ensures Correct(dis, str1, str2, 0, q)
      {
        assert Correct(previous, str1, str2, 0, q);
      }
    }
    for i := 1 to |str1| + 1
      invariant Filled(dis, str1, str2, i, 0)
    {
      for j := 1 to |str2| + 1
        invariant Filled(dis, str1, str2, i, j)
      {
        assert Correct(dis, str1, str2, i - 1, j - 1) && Correct(dis, str1, str2, i - 1, j) && Correct(dis, str1, str2, i, j - 1);
        var entry := Min(dis[(i - 1, j - 1)] + Differ(str1[i - 1], str2[j - 1]), Min(dis[(i - 1, j)] + 1, dis[(i, j - 1)] + 1));
        Entry(str1, str2, i, j);
        FillOne(dis, str1, str2, i, j, entry);
        dis := dis[(i, j) := entry];
      }
    }
    assert Correct(dis, str1, str2, |str1|, |str2|);
    assert str1[..|str1|] == str1 && str2[..|str2|] == str2;
    distance := dis[(|str1|, |str2|)];
  }

  lemma Border(a: string, b: string, i: nat, j: nat)
    requires i <= |a| && j <= |b| && (i == 0 || j == 0)
    ensures Distance(a[..i], b[..j]) == i + j
  {
  }

  lemma FillOne(dis: map<(nat, nat), nat>, a: string, b: string, i: nat, j: nat, entry: nat)
    requires Filled(dis, a, b, i, j) && 1 <= i <= |a| && 1 <= j <= |b|
    requires entry == Distance(a[..i], b[..j])
    ensures Filled(dis[(i, j) := entry], a, b, i, j + 1)
  {
    hide Distance;
    var next := dis[(i, j) := entry];
    forall p: nat, q: nat | p <= |a| && q <= |b| && (p == 0 || q == 0 || p < i || (p == i && q < j + 1))
      ensures Correct(next, a, b, p, q)
    {
      if p != i || q != j {
        assert Correct(dis, a, b, p, q);
      }
    }
  }
}
