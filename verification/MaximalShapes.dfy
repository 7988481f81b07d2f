/** Shapes (crates/stark/src/shape/mod.rs) and the list of maximal shapes
    (crates/prover/scripts/find_maximal_shapes.rs). */
module MaximalShapes {

  type AirId = nat

  /** The log2 height of every chip in the shape. */
  datatype Shape = Shape(heights: map<AirId, nat>)

  datatype Ordering = Less | Equal | Greater | Incomparable

  // ---------------------------------------------------------------------------------------
  // The order
  // ---------------------------------------------------------------------------------------

  /** `b` has all of `a`'s chips, none lower and one strictly higher. More chips alone do not
      make a shape larger. */
  ghost predicate Below(a: Shape, b: Shape) {
    && (forall k | k in a.heights :: k in b.heights && a.heights[k] <= b.heights[k])
    && exists k :: k in a.heights && a.heights[k] < b.heights[k]
  }

  ghost predicate AtMost(a: Shape, b: Shape) { a == b || Below(a, b) }

  /** What `partial_cmp` reports, in terms of the order. */
  ghost function Compare(a: Shape, b: Shape): Ordering {
    if a == b then Equal
    else if Below(a, b) then Less
    else if Below(b, a) then Greater
    else Incomparable
  }

  /** The order is strict, so `Compare` gives opposite answers to swapped arguments. */
  lemma BelowIsStrict(a: Shape, b: Shape, c: Shape)
    ensures !Below(a, a)
    ensures !(Below(a, b) && Below(b, a))
    ensures Below(a, b) && Below(b, c) ==> Below(a, c)
  {
    if Below(a, b) {
      var k :| k in a.heights && a.heights[k] < b.heights[k];
      assert k in b.heights;
      if Below(b, c) { assert k in b.heights && a.heights[k] < c.heights[k]; }
    }
  }

  /** Raising a chip makes a shape greater, and the raised shape is the one that is kept. */
  lemma RaisedIsGreater(a: Shape, k: AirId, height: nat)
    requires k in a.heights && a.heights[k] < height
    ensures
      var b := Shape(a.heights[k := height]);
      && Compare(b, a) == Greater && Compare(a, b) == Less
      && Inserted([a], b) == [b] && Inserted([b], a) == [b]
  {
    var b := Shape(a.heights[k := height]);
    assert Below(a, b) by { assert k in a.heights && a.heights[k] < b.heights[k]; }
    BelowIsStrict(a, b, a);
    BelowIsStrict(b, a, b);
    hide Below;
    assert Survivors([a], b) == [] by { assert [a][1..] == []; }
    assert a in [a] && b in [b];
    assert Dominated([b], a) && !Dominated([a], b);
  }

  /** A shape that only lacks chips is not below the other: the two stay side by side. */
  lemma ExtraChipsDoNotCount(a: Shape, b: Shape)
    requires a.heights.Keys < b.heights.Keys
    requires forall k | k in a.heights :: a.heights[k] == b.heights[k]
    ensures Compare(a, b) == Incomparable && Compare(b, a) == Incomparable
  {
    var k :| k in b.heights.Keys && k !in a.heights.Keys;
    assert k in b.heights && k !in a.heights;
  }

  /** A loop over the chips of `a`: is one lower than in `b`, and is one higher? */
  method Scan(a: Shape, b: Shape) returns (lower: bool, higher: bool)
    requires a.heights.Keys <= b.heights.Keys
    ensures lower <==> exists k :: k in a.heights && a.heights[k] < b.heights[k]
    ensures higher <==> exists k :: k in a.heights && a.heights[k] > b.heights[k]
  {
    lower, higher := false, false;
    var left := a.heights.Keys;
    while left != {}
      invariant left <= a.heights.Keys
      invariant lower <==> exists k :: k in a.heights.Keys - left && a.heights[k] < b.heights[k]
      invariant higher <==> exists k :: k in a.heights.Keys - left && a.heights[k] > b.heights[k]
      decreases left
    {
      var name :| name in left;
      ghost var done := a.heights.Keys - left;
      left := left - {name};
      assert a.heights.Keys - left == done + {name};
      if a.heights[name] < b.heights[name] { lower := true; }
      else if a.heights[name] > b.heights[name] { higher := true; }
    }
    assert a.heights.Keys - left == a.heights.Keys;
  }

  method PartialCmp(a: Shape, b: Shape) returns (r: Ordering)
    ensures r == Compare(a, b)
  {
    BelowIsStrict(a, b, a);
    if a == b { return Equal; }
    if a.heights.Keys <= b.heights.Keys {
      var lessSeen, greaterSeen := Scan(a, b);
      if lessSeen && greaterSeen { return Incomparable; }
      if lessSeen { return Less; }
    }
    if b.heights.Keys <= a.heights.Keys {
      var greaterSeen, lessSeen := Scan(b, a);
      if lessSeen && greaterSeen { return Incomparable; }
      if greaterSeen { return Greater; }
    }
    return Incomparable;
  }

  // ---------------------------------------------------------------------------------------
  // Insertion
  // ---------------------------------------------------------------------------------------

  ghost predicate Antichain(s: seq<Shape>) {
    forall i, j | 0 <= i < |s| && 0 <= j < |s| && i != j :: !AtMost(s[i], s[j])
  }

  ghost function Survivors(s: seq<Shape>, e: Shape): seq<Shape> {
    if s == [] then []
    else (if Below(s[0], e) then [] else [s[0]]) + Survivors(s[1..], e)
  }

  lemma {:induction false} SurvivorsAre(s: seq<Shape>, e: Shape, x: Shape)
    ensures x in Survivors(s, e) <==> x in s && !Below(x, e)
  {
    hide Below;
    if s != [] {
      SurvivorsAre(s[1..], e, x);
      assert s == [s[0]] + s[1..];
    }
  }

  ghost predicate Dominated(s: seq<Shape>, e: Shape) { exists m :: m in s && AtMost(e, m) }

  /** The list after `insert`. */
  ghost function Inserted(s: seq<Shape>, e: Shape): seq<Shape> {
    if Dominated(s, e) then s else Survivors(s, e) + [e]
  }

  lemma SurvivorsCons(x: Shape, s: seq<Shape>, e: Shape)
    ensures Survivors([x] + s, e) == (if Below(x, e) then [] else [x]) + Survivors(s, e)
  {
    hide Below;
    assert ([x] + s)[1..] == s;
  }

  lemma {:induction false} SurvivorsConcat(s: seq<Shape>, t: seq<Shape>, e: Shape)
    ensures Survivors(s + t, e) == Survivors(s, e) + Survivors(t, e)
  {
    hide Below, Survivors;
    if s == [] {
      assert s + t == t;
      NoSurvivors(e);
    } else {
      var x, u := s[0], s[1..];
      assert s == [x] + u && s + t == [x] + (u + t);
      SurvivorsConcat(u, t, e);
      SurvivorsCons(x, u, e);
      SurvivorsCons(x, u + t, e);
      var head := if Below(x, e) then [] else [x];
      assert head + (Survivors(u, e) + Survivors(t, e)) == head + Survivors(u, e) + Survivors(t, e);
    }
  }

  lemma NoSurvivors(e: Shape)
    ensures Survivors([], e) == []
  {}

  lemma {:induction false} AllSurvive(s: seq<Shape>, e: Shape)
    requires forall i | 0 <= i < |s| :: !Below(s[i], e)
    ensures Survivors(s, e) == s
  {
    hide Below;
    if s != [] { AllSurvive(s[1..], e); }
  }

  /** Removing index `i` when everything from `c` on is settled and nothing lies between. */
  lemma RemoveStep(s: seq<Shape>, e: Shape, i: nat, c: nat)
    requires i < c <= |s| && Below(s[i], e)
    requires forall k | i < k < c :: !Below(s[k], e)
    ensures s[..i] + (s[..c] + Survivors(s[c..], e))[i + 1..] == s[..i] + Survivors(s[i..], e)
  {
    hide Below;
    var between, tail := s[i + 1..c], Survivors(s[c..], e);
    AllSurvive(between, e);
    SurvivorsConcat(between, s[c..], e);
    assert between + s[c..] == s[i..][1..];
    CutOut(s, i, c, tail);
  }

  lemma CutOut<T>(s: seq<T>, i: nat, c: nat, tail: seq<T>)
    requires i < c <= |s|
    ensures (s[..c] + tail)[i + 1..] == s[i + 1..c] + tail
  {}

  /** The indices a scan of the whole list has marked. */
  ghost predicate MarksBelow(marks: seq<nat>, s: seq<Shape>, e: Shape, n: nat) {
    && (forall j | 0 <= j < |marks| :: marks[j] < n <= |s| && Below(s[marks[j]], e))
    && (forall i, j | 0 <= i < j < |marks| :: marks[i] < marks[j])
    && (forall k | 0 <= k < n <= |s| && Below(s[k], e) :: k in marks)
  }

  /** In an antichain an element that is to be removed excludes one that dominates. */
  lemma NoPendingRemovals(s: seq<Shape>, e: Shape, i: nat, j: nat)
    requires Antichain(s) && i < |s| && j < |s| && AtMost(e, s[i])
    ensures !Below(s[j], e)
  {
    assert i == j || !AtMost(s[j], s[i]);
    BelowIsStrict(s[j], e, s[i]);
    BelowIsStrict(e, s[i], e);
  }

  /** Removal of the marked indices, last first. */
  method RemoveMarked(s: seq<Shape>, marks: seq<nat>, ghost e: Shape) returns (r: seq<Shape>)
    requires MarksBelow(marks, s, e, |s|)
    ensures r == Survivors(s, e)
  {
    hide Below, Survivors, MarksBelow;
    r := s;
    var j := |marks|;
    ghost var cut := |s|;
    NothingCut(s, e);
    while j > 0
      invariant 0 <= j <= |marks| && cut <= |s|
      invariant cut == if j == |marks| then |s| else marks[j]
      invariant r == s[..cut] + Survivors(s[cut..], e)
    {
      j := j - 1;
      var i := marks[j];
      Between(marks, s, e, j, cut);
      RemoveStep(s, e, i, cut);
      r := r[..i] + r[i + 1..];
      cut := i;
    }
    FrontSurvives(marks, s, e, cut);
  }

  lemma NothingCut(s: seq<Shape>, e: Shape)
    ensures s == s[..|s|] + Survivors(s[|s|..], e)
  {
  }

  class MaximalList {
    var inner: seq<Shape>

    constructor ()
      ensures inner == []
    {
      inner := [];
    }

    /** `insert`: one scan that may stop early, then removal from the back, then a push. */
    method Insert(element: Shape)
      requires Antichain(inner)
      modifies this
      ensures inner == Inserted(old(inner), element)
      ensures Antichain(inner)
    {
      hide Antichain, Below, Compare;
      ghost var s := inner;
      InsertedAntichain(s, element);
      var toRemove: seq<nat> := [];
      for i := 0 to |inner|
        invariant inner == s
        invariant MarksBelow(toRemove, s, element, i)
        invariant forall k | 0 <= k < i :: !AtMost(element, s[k])
      {
        CompareSays(element, inner[i]);
        var c := PartialCmp(element, inner[i]);
        if c == Greater {
          toRemove := toRemove + [i];
        } else if c == Less || c == Equal {
          assert AtMost(element, s[i]);
          NothingPending(toRemove, s, element, i);
          assert toRemove == [];
          return;
        }
      }
      inner := RemoveMarked(inner, toRemove, element);
      assert !Dominated(s, element);
      inner := inner + [element];
    }
  }

  lemma CompareSays(a: Shape, b: Shape)
    ensures Compare(a, b) == Greater <==> Below(b, a)
    ensures Compare(a, b).Less? || Compare(a, b).Equal? <==> AtMost(a, b)
  {
    BelowIsStrict(a, b, a);
    BelowIsStrict(b, a, b);
  }

  lemma NothingPending(marks: seq<nat>, s: seq<Shape>, e: Shape, i: nat)
    requires MarksBelow(marks, s, e, i) && Antichain(s) && i < |s| && AtMost(e, s[i])
    ensures marks == []
  {
    hide Below, AtMost, Antichain;
    var first := if marks == [] then 0 else marks[0];
    NoPendingRemovals(s, e, i, if marks == [] then i else first);
  }

  lemma Between(marks: seq<nat>, s: seq<Shape>, e: Shape, j: nat, cut: nat)
    requires MarksBelow(marks, s, e, |s|) && j < |marks|
    requires cut == if j + 1 == |marks| then |s| else marks[j + 1]
    ensures marks[j] < cut <= |s| && Below(s[marks[j]], e)
    ensures forall k | marks[j] < k < cut :: !Below(s[k], e)
  {
    forall k | marks[j] < k < cut ensures !Below(s[k], e) {
      forall m | 0 <= m < |marks| ensures marks[m] != k {
        assert m < j || m == j || m == j + 1 || m > j + 1;
      }
    }
  }

  lemma FrontSurvives(marks: seq<nat>, s: seq<Shape>, e: Shape, cut: nat)
    requires MarksBelow(marks, s, e, |s|) && cut <= |s|
    requires cut == if marks == [] then |s| else marks[0]
    ensures s[..cut] + Survivors(s[cut..], e) == Survivors(s, e)
  {
    hide Below;
    forall k | 0 <= k < cut ensures !Below(s[k], e) {
      forall m | 0 <= m < |marks| ensures marks[m] != k {}
    }
    AllSurvive(s[..cut], e);
    SurvivorsConcat(s[..cut], s[cut..], e);
    assert s[..cut] + s[cut..] == s;
  }

  // ---------------------------------------------------------------------------------------
  // Antichain of the maximal elements
  // ---------------------------------------------------------------------------------------

  lemma {:induction false} SurvivorsAntichain(s: seq<Shape>, e: Shape)
    requires Antichain(s)
    ensures Antichain(Survivors(s, e))
  {
    if s != [] {
      var rest := Survivors(s[1..], e);
      assert Antichain(s[1..]) by {
        forall i, j | 0 <= i < |s[1..]| && 0 <= j < |s[1..]| && i != j
          ensures !AtMost(s[1..][i], s[1..][j])
        {
          assert !AtMost(s[i + 1], s[j + 1]);
        }
      }
      SurvivorsAntichain(s[1..], e);
      forall x | x in rest ensures !AtMost(x, s[0]) && !AtMost(s[0], x) {
        SurvivorsAre(s[1..], e, x);
        var k :| 0 <= k < |s[1..]| && s[1..][k] == x;
        assert s[k + 1] == x;
      }
      if !Below(s[0], e) { AntichainJoin([s[0]], rest); }
    }
  }

  lemma AntichainJoin(s: seq<Shape>, t: seq<Shape>)
    requires Antichain(s) && Antichain(t)
    requires forall x, y | x in s && y in t :: !AtMost(x, y) && !AtMost(y, x)
    ensures Antichain(s + t)
  {
    var u := s + t;
    forall i, j | 0 <= i < |u| && 0 <= j < |u| && i != j ensures !AtMost(u[i], u[j]) {
      if i < |s| && j >= |s| { assert u[i] in s && u[j] in t; }
      if i >= |s| && j < |s| { assert u[i] in t && u[j] in s; }
    }
  }

  lemma InsertedAntichain(s: seq<Shape>, e: Shape)
    requires Antichain(s)
    ensures Antichain(Inserted(s, e))
  {
    if !Dominated(s, e) {
      forall x | x in Survivors(s, e) ensures !AtMost(x, e) && !AtMost(e, x) {
        SurvivorsAre(s, e, x);
        assert x in s && AtMost(x, x);
      }
      SurvivorsAntichain(s, e);
      AntichainJoin(Survivors(s, e), [e]);
    }
  }

  ghost function InsertAll(elements: seq<Shape>): seq<Shape> {
    if elements == [] then []
    else Inserted(InsertAll(elements[..|elements| - 1]), elements[|elements| - 1])
  }

  ghost predicate Maximal(x: Shape, elements: seq<Shape>) {
    x in elements && forall y | y in elements :: !Below(x, y)
  }

  /** Everything inserted is at most something in the list. */
  ghost predicate Covers(s: seq<Shape>, elements: seq<Shape>) {
    forall x | x in elements :: Dominated(s, x)
  }

  lemma InsertCovers(s: seq<Shape>, elements: seq<Shape>, e: Shape)
    requires Covers(s, elements)
    ensures Covers(Inserted(s, e), elements + [e])
  {
    var r := Inserted(s, e);
    forall x | x in elements + [e] ensures Dominated(r, x) {
      if x in elements {
        assert Dominated(s, x);
        var m :| m in s && AtMost(x, m);
        SurvivorsAre(s, e, m);
        if m !in r {
          assert e in r && Below(m, e);
          BelowIsStrict(x, m, e);
        }
      } else if !Dominated(s, e) {
        assert e in r;
      }
    }
  }

  lemma {:induction false} InsertAllKeeps(elements: seq<Shape>)
    ensures Antichain(InsertAll(elements))
    ensures Covers(InsertAll(elements), elements)
    ensures forall x | x in InsertAll(elements) :: x in elements
  {
    if elements != [] {
      var k := |elements| - 1;
      InsertAllKeeps(elements[..k]);
      assert elements == elements[..k] + [elements[k]];
      InsertedAntichain(InsertAll(elements[..k]), elements[k]);
      forall x | x in InsertAll(elements) ensures x in elements {
        SurvivorsAre(InsertAll(elements[..k]), elements[k], x);
      }
      InsertCovers(InsertAll(elements[..k]), elements[..k], elements[k]);
    }
  }

  /** After any sequence of insertions into the empty list, the list holds each maximal element
      of everything inserted exactly once, and nothing else. */
  lemma ExactlyTheMaximal(elements: seq<Shape>, x: Shape)
    ensures x in InsertAll(elements) <==> Maximal(x, elements)
    ensures Antichain(InsertAll(elements))
    ensures multiset(InsertAll(elements))[x] <= 1
  {
    hide Below, AtMost;
    var r := InsertAll(elements);
    InsertAllKeeps(elements);
    if x in r {
      forall y | y in elements ensures !Below(x, y) {
        assert Dominated(r, y);
        var m :| m in r && AtMost(y, m);
        NothingAbove(r, x, y, m);
      }
    }
    if Maximal(x, elements) {
      assert Dominated(r, x);
      var m :| m in r && AtMost(x, m);
      MaximalIsMet(elements, x, m);
    }
    NoRepeats(r, x);
  }

  lemma MaximalIsMet(elements: seq<Shape>, x: Shape, m: Shape)
    requires Maximal(x, elements) && m in elements && AtMost(x, m)
    ensures x == m
  {}

  /** A member of an antichain is not below anything that some member dominates. */
  lemma NothingAbove(r: seq<Shape>, x: Shape, y: Shape, m: Shape)
    requires Antichain(r) && x in r && m in r && AtMost(y, m)
    ensures !Below(x, y)
  {
    BelowIsStrict(x, y, m);
    BelowIsStrict(x, m, x);
    var i :| 0 <= i < |r| && r[i] == x;
    var j :| 0 <= j < |r| && r[j] == m;
    assert i != j ==> !AtMost(r[i], r[j]);
  }

  lemma {:induction false} NoRepeats(s: seq<Shape>, x: Shape)
    requires forall i, j | 0 <= i < |s| && 0 <= j < |s| && i != j :: !AtMost(s[i], s[j])
    ensures multiset(s)[x] <= 1
  {
    if s != [] {
      var k := |s| - 1;
      assert forall i | 0 <= i < k :: s[..k][i] == s[i];
      NoRepeats(s[..k], x);
      assert s == s[..k] + [s[k]];
      hide Below;
      forall i | 0 <= i < k ensures s[..k][i] != s[k] { assert !AtMost(s[i], s[k]); }
    }
  }

  /** The order of the insertions does not matter for which shapes are kept. */
  lemma OrderDoesNotMatter(elements: seq<Shape>, others: seq<Shape>)
    requires forall x :: x in elements <==> x in others
    ensures forall x :: x in InsertAll(elements) <==> x in InsertAll(others)
  {
    forall x ensures x in InsertAll(elements) <==> x in InsertAll(others) {
      ExactlyTheMaximal(elements, x);
      ExactlyTheMaximal(others, x);
    }
  }
}
