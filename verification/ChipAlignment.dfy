/** Chip orderings (crates/stark/src/machine.rs, crates/stark/src/verifier.rs): what the two
    validators accept, and why every chip then meets its own opened values. */
module ChipAlignment {
  import opened Collections

  datatype Name = Name(text: string)

  /** A chip of the machine: its name and everything else about it. */
  datatype Chip<C> = Chip(name: Name, air: C)

  type Ordering = map<Name, nat>

  datatype OrderingError =
    | LengthMismatch
    | ChipOpeningLengthMismatch
    | UnknownChip(name: Name)
    | OutOfBounds(name: Name, index: nat)
    | Duplicate(index: nat)
    | NotContiguous
    | MissingPreprocessed(name: Name)

  datatype Verdict = Ok | Err(error: OrderingError)

  function Names<C>(chips: seq<Chip<C>>): (r: set<Name>)
    ensures forall i | 0 <= i < |chips| :: chips[i].name in r
    ensures forall x | x in r :: exists i | 0 <= i < |chips| :: chips[i].name == x
  {
    set i | 0 <= i < |chips| :: chips[i].name
  }

  predicate DistinctNames<C>(chips: seq<Chip<C>>) {
    forall i, j | 0 <= i < j < |chips| :: chips[i].name != chips[j].name
  }

  /** One order in which a hash map may hand out its keys. */
  predicate Enumerates(keys: seq<Name>, o: Ordering) {
    && (forall i | 0 <= i < |keys| :: keys[i] in o)
    && (forall x | x in o :: x in keys)
    && Distinct(keys)
  }

  predicate Injective(o: Ordering) {
    forall x, y | x in o && y in o && o[x] == o[y] :: x == y
  }

  /** The ordering is a bijection from its names onto 0 .. n. */
  predicate Bijection(o: Ordering, n: nat) {
    && (forall x | x in o :: o[x] < n)
    && Injective(o)
    && forall i | 0 <= i < n :: i in o.Values
  }

  /** What a validator has to establish. */
  predicate Aligned(known: set<Name>, preprocessed: seq<Name>, n: nat, o: Ordering) {
    && |o| == n
    && (forall x | x in o :: x in known)
    && Bijection(o, n)
    && forall i | 0 <= i < |preprocessed| :: preprocessed[i] in o
  }

  // ---------------------------------------------------------------------------------------
  // Counting
  // ---------------------------------------------------------------------------------------

  function Below(n: nat): set<nat> {
    if n == 0 then {} else Below(n - 1) + {n - 1}
  }

  lemma {:induction false} BelowIs(n: nat)
    ensures |Below(n)| == n
    ensures forall i: nat :: i in Below(n) <==> i < n
  {
    if n > 0 { BelowIs(n - 1); }
  }

  function Elements<T>(s: seq<T>): set<T> {
    if s == [] then {} else Elements(s[..|s| - 1]) + {s[|s| - 1]}
  }

  lemma {:induction false} ElementsAre<T>(s: seq<T>)
    ensures forall x :: x in Elements(s) <==> exists i | 0 <= i < |s| :: s[i] == x
  {
    if s != [] {
      var k := |s| - 1;
      ElementsAre(s[..k]);
      forall x ensures x in Elements(s) <==> exists i | 0 <= i < |s| :: s[i] == x {
        if x in Elements(s[..k]) {
          var i :| 0 <= i < k && s[..k][i] == x;
          assert s[i] == x;
        }
        if i :| 0 <= i < |s| && s[i] == x {
          if i < k { assert s[..k][i] == x; }
        }
      }
    }
  }

  lemma {:induction false} DistinctSize<T>(s: seq<T>)
    requires Distinct(s)
    ensures |Elements(s)| == |s|
  {
    if s != [] {
      var k := |s| - 1;
      DistinctSize(s[..k]);
      ElementsAre(s[..k]);
    }
  }

  /** As many keys as the map has entries. */
  lemma EnumerationLength(keys: seq<Name>, o: Ordering)
    requires Enumerates(keys, o)
    ensures |keys| == |o|
  {
    ElementsAre(keys);
    DistinctSize(keys);
    assert Elements(keys) == o.Keys;
  }

  /** The places of the keys, in the keys' order. */
  function KeyPlaces(keys: seq<Name>, o: Ordering): (r: seq<nat>)
    requires Enumerates(keys, o)
  {
    seq(|keys|, i requires 0 <= i < |keys| => o[keys[i]])
  }

  lemma KeyPlacesDistinct(keys: seq<Name>, o: Ordering)
    requires Enumerates(keys, o) && Injective(o)
    ensures Distinct(KeyPlaces(keys, o))
  {
    var a := KeyPlaces(keys, o);
    forall i, j | 0 <= i < j < |a| ensures a[i] != a[j] {
      assert keys[i] in o && keys[j] in o && keys[i] != keys[j];
    }
  }

  /** Pigeonhole: n different places below n leave none free. */
  lemma Contiguous(keys: seq<Name>, o: Ordering, n: nat)
    requires Enumerates(keys, o) && |o| == n && Injective(o)
    requires forall x | x in o :: o[x] < n
    ensures Bijection(o, n)
  {
    hide Injective, Distinct;
    var a := KeyPlaces(keys, o);
    EnumerationLength(keys, o);
    KeyPlacesDistinct(keys, o);
    DistinctSize(a);
    ElementsAre(a);
    BelowIs(n);
    forall j | j in Elements(a) ensures j in Below(n) && j in o.Values {
      var i :| 0 <= i < n && a[i] == j;
      assert keys[i] in o;
    }
    SubsetSize(Elements(a), Below(n));
  }

  // ---------------------------------------------------------------------------------------
  // The validators
  // ---------------------------------------------------------------------------------------

  /** Which places the first `k` keys have marked. */
  predicate Marks(seen: seq<bool>, keys: seq<Name>, o: Ordering, k: nat)
    requires k <= |keys| && forall i | 0 <= i < |keys| :: keys[i] in o
  {
    && (forall i | 0 <= i < k :: o[keys[i]] < |seen| && seen[o[keys[i]]])
    && (forall j | 0 <= j < |seen| && seen[j] :: exists i | 0 <= i < k :: o[keys[i]] == j)
    && (forall i, j | 0 <= i < j < k :: o[keys[i]] != o[keys[j]])
  }

  lemma MarkedIsInjective(seen: seq<bool>, keys: seq<Name>, o: Ordering)
    requires Enumerates(keys, o) && Marks(seen, keys, o, |keys|)
    ensures Injective(o)
    ensures forall x | x in o :: o[x] < |seen|
  {
    forall x, y | x in o && y in o && o[x] == o[y] ensures x == y {
      var i :| 0 <= i < |keys| && keys[i] == x;
      var j :| 0 <= j < |keys| && keys[j] == y;
    }
  }

  lemma AllMarked(seen: seq<bool>, keys: seq<Name>, o: Ordering)
    requires Enumerates(keys, o) && Marks(seen, keys, o, |keys|) && Bijection(o, |seen|)
    ensures forall j | 0 <= j < |seen| :: seen[j]
  {
    forall j | 0 <= j < |seen| ensures seen[j] {
      assert j in o.Values;
      var x :| x in o && o[x] == j;
      var i :| 0 <= i < |keys| && keys[i] == x;
    }
  }

  lemma MarkFree(seen: seq<bool>, keys: seq<Name>, o: Ordering, k: nat)
    requires Enumerates(keys, o) && k < |keys| && Marks(seen, keys, o, k)
    requires o[keys[k]] < |seen| && !seen[o[keys[k]]]
    ensures Marks(seen[o[keys[k]] := true], keys, o, k + 1)
  {
    var index := o[keys[k]];
    var after := seen[index := true];
    forall j | 0 <= j < |after| && after[j] ensures exists i | 0 <= i < k + 1 :: o[keys[i]] == j {
      if j == index { assert o[keys[k]] == j; } else { assert seen[j]; }
    }
  }

  lemma MarkTaken(seen: seq<bool>, keys: seq<Name>, o: Ordering, k: nat)
    requires Enumerates(keys, o) && k < |keys| && Marks(seen, keys, o, k)
    requires o[keys[k]] < |seen| && seen[o[keys[k]]]
    ensures exists x :: x in o && x != keys[k] && o[x] == o[keys[k]]
  {
    var i :| 0 <= i < k && o[keys[i]] == o[keys[k]];
    assert keys[i] in o && keys[i] != keys[k];
  }

  lemma MarkedIsBijection(seen: seq<bool>, keys: seq<Name>, o: Ordering)
    requires Enumerates(keys, o) && Marks(seen, keys, o, |keys|) && |o| == |seen|
    ensures Bijection(o, |seen|)
    ensures forall j | 0 <= j < |seen| :: seen[j]
  {
    MarkedIsInjective(seen, keys, o);
    Contiguous(keys, o, |seen|);
    AllMarked(seen, keys, o);
  }

  lemma NothingMarked(seen: seq<bool>, keys: seq<Name>, o: Ordering)
    requires Enumerates(keys, o) && forall j | 0 <= j < |seen| :: !seen[j]
    ensures Marks(seen, keys, o, 0)
  {}

  lemma TakenTwice(o: Ordering, x: Name, n: nat)
    requires x in o && exists y :: y in o && y != x && o[y] == o[x]
    ensures !Bijection(o, n)
  {
    var y :| y in o && y != x && o[y] == o[x];
  }

  method MarkPlaces(known: set<Name>, o: Ordering, n: nat, keys: seq<Name>)
    returns (r: Verdict)
    requires Enumerates(keys, o) && |o| == n
    ensures r == Ok <==> (forall x | x in o :: x in known) && Bijection(o, n)
    ensures r.Err? ==>
      (match r.error
       case UnknownChip(x) => x in o && x !in known
       case OutOfBounds(x, i) => x in o && o[x] == i >= n
       case Duplicate(i) => exists x :: x in o && o[x] == i && exists y :: y in o && y != x && o[y] == o[x]
       case _ => false)
  {
    hide Marks, Injective;
    var seen := new bool[n](_ => false);
    NothingMarked(seen[..], keys, o);
    for k := 0 to |keys|
      invariant Marks(seen[..], keys, o, k)
      invariant forall i | 0 <= i < k :: keys[i] in known
    {
      var name := keys[k];
      var index := o[name];
      if name !in known { return Err(UnknownChip(name)); }
      if index >= n { return Err(OutOfBounds(name, index)); }
      if seen[index] {
        MarkTaken(seen[..], keys, o, k);
        TakenTwice(o, name, n);
        return Err(Duplicate(index));
      }
      MarkFree(seen[..], keys, o, k);
      seen[index] := true;
    }
    MarkedIsBijection(seen[..], keys, o);
    // The scan for a place left unmarked never finds one.
    for j := 0 to n {
      assert seen[..][j];
      if !seen[j] { return Err(NotContiguous); }
    }
    return Ok;
  }

  method CheckPreprocessed(preprocessed: seq<Name>, o: Ordering) returns (r: Verdict)
    ensures r == Ok <==> forall i | 0 <= i < |preprocessed| :: preprocessed[i] in o
    ensures r != Ok ==> exists i | 0 <= i < |preprocessed| ::
      preprocessed[i] !in o && r == Err(MissingPreprocessed(preprocessed[i]))
  {
    for i := 0 to |preprocessed|
      invariant forall j | 0 <= j < i :: preprocessed[j] in o
    {
      if preprocessed[i] !in o { return Err(MissingPreprocessed(preprocessed[i])); }
    }
    return Ok;
  }

  /** `StarkMachine::validate_chip_ordering`, for any order `keys` of the hash map. */
  method ValidateMachine<C>(chips: seq<Chip<C>>, preprocessed: seq<Name>, n: nat, o: Ordering,
                            keys: seq<Name>)
    returns (r: Verdict)
    requires Enumerates(keys, o)
    ensures r == Ok <==> Aligned(Names(chips), preprocessed, n, o)
    ensures r != Err(NotContiguous) && r != Err(ChipOpeningLengthMismatch)
    ensures r == Err(LengthMismatch) <==> |o| != n
  {
    if |o| != n { return Err(LengthMismatch); }
    r := MarkPlaces(Names(chips), o, n, keys);
    if r == Ok { r := CheckPreprocessed(preprocessed, o); }
  }

  /** `Verifier::validate_chip_ordering` behind the length check of `verify_shard`. */
  method ValidateShard<C>(chips: seq<Chip<C>>, preprocessed: seq<Name>, n: nat, o: Ordering,
                          keys: seq<Name>)
    returns (r: Verdict)
    requires Enumerates(keys, o)
    ensures r == Ok <==> |chips| == n && Aligned(Names(chips), preprocessed, n, o)
    ensures r == Err(ChipOpeningLengthMismatch) <==> |chips| != n
    ensures r != Err(NotContiguous)
  {
    if |chips| != n { return Err(ChipOpeningLengthMismatch); }
    if |o| != n { return Err(LengthMismatch); }
    r := MarkPlaces(Names(chips), o, n, keys);
    if r == Ok { r := CheckPreprocessed(preprocessed, o); }
  }

  // ---------------------------------------------------------------------------------------
  // Filter and sort
  // ---------------------------------------------------------------------------------------

  predicate Placed<C>(s: seq<Chip<C>>, o: Ordering) {
    forall i | 0 <= i < |s| :: s[i].name in o
  }

  function Included<C>(chips: seq<Chip<C>>, o: Ordering): (r: seq<Chip<C>>)
    ensures Placed(r, o)
  {
    if chips == [] then []
    else
      var k := |chips| - 1;
      Included(chips[..k], o) + if chips[k].name in o then [chips[k]] else []
  }

  /** Insertion behind everything that is not larger, so that the sort is stable. */
  function Insert<C>(s: seq<Chip<C>>, c: Chip<C>, o: Ordering): (r: seq<Chip<C>>)
    requires Placed(s, o) && c.name in o
    ensures Placed(r, o) && |r| == |s| + 1
    ensures multiset(r) == multiset(s) + multiset{c}
  {
    if s == [] then [c]
    else if o[c.name] < o[s[0].name] then [c] + s
    else
      assert s == [s[0]] + s[1..];
      [s[0]] + Insert(s[1..], c, o)
  }

  function SortByPlace<C>(s: seq<Chip<C>>, o: Ordering): (r: seq<Chip<C>>)
    requires Placed(s, o)
    ensures Placed(r, o) && |r| == |s|
    ensures multiset(r) == multiset(s)
  {
    if s == [] then []
    else
      var k := |s| - 1;
      assert s == s[..k] + [s[k]];
      Insert(SortByPlace(s[..k], o), s[k], o)
  }

  /** `shard_chips_ordered`. */
  function ShardChipsOrdered<C>(chips: seq<Chip<C>>, o: Ordering): (r: seq<Chip<C>>)
    ensures Placed(r, o)
  {
    SortByPlace(Included(chips, o), o)
  }

  predicate Sorted<C>(s: seq<Chip<C>>, o: Ordering)
    requires Placed(s, o)
  {
    forall i, j | 0 <= i < j < |s| :: o[s[i].name] <= o[s[j].name]
  }

  lemma {:induction false} InsertKeeps<C>(s: seq<Chip<C>>, c: Chip<C>, o: Ordering)
    requires Placed(s, o) && c.name in o && Sorted(s, o)
    ensures Sorted(Insert(s, c, o), o)
  {
    if s != [] && o[c.name] >= o[s[0].name] {
      var rest := Insert(s[1..], c, o);
      InsertKeeps(s[1..], c, o);
      forall i | 0 <= i < |rest| ensures o[s[0].name] <= o[rest[i].name] {
        assert rest[i] in multiset(rest);
        if rest[i] != c {
          var j :| 0 <= j < |s[1..]| && s[1..][j] == rest[i];
          assert s[j + 1] == rest[i];
        }
      }
      SortedCons(s[0], rest, o);
    }
  }

  lemma SortedCons<C>(c: Chip<C>, s: seq<Chip<C>>, o: Ordering)
    requires Placed(s, o) && c.name in o && Sorted(s, o)
    requires forall i | 0 <= i < |s| :: o[c.name] <= o[s[i].name]
    ensures Placed([c] + s, o) && Sorted([c] + s, o)
  {}

  lemma {:induction false} SortSorts<C>(s: seq<Chip<C>>, o: Ordering)
    requires Placed(s, o)
    ensures Sorted(SortByPlace(s, o), o)
  {
    if s != [] {
      var k := |s| - 1;
      SortSorts(s[..k], o);
      InsertKeeps(SortByPlace(s[..k], o), s[k], o);
    }
  }

  // ---------------------------------------------------------------------------------------
  // Names through filter and sort
  // ---------------------------------------------------------------------------------------

  lemma NamesSnoc<C>(s: seq<Chip<C>>, c: Chip<C>)
    ensures Names(s + [c]) == Names(s) + {c.name}
    ensures DistinctNames(s + [c]) <==> DistinctNames(s) && c.name !in Names(s)
  {
    var t := s + [c];
    assert t[|s|] == c;
    assert forall i | 0 <= i < |s| :: t[i] == s[i];
    if DistinctNames(t) {
      forall i, j | 0 <= i < j < |s| ensures s[i].name != s[j].name {
        assert t[i].name != t[j].name;
      }
      forall i | 0 <= i < |s| ensures s[i].name != c.name {
        assert t[i].name != t[|s|].name;
      }
    }
  }

  /** Distinctness is as many names as chips, so it depends only on the multiset of chips. */
  lemma {:induction false} DistinctIsCount<C>(s: seq<Chip<C>>)
    ensures |Names(s)| <= |s|
    ensures DistinctNames(s) <==> |Names(s)| == |s|
  {
    if s == [] {
      assert Names(s) == {};
    } else {
      var k := |s| - 1;
      DistinctIsCount(s[..k]);
      NamesSnoc(s[..k], s[k]);
      assert s[..k] + [s[k]] == s;
    }
  }

  lemma NamesOfPermutation<C>(s: seq<Chip<C>>, t: seq<Chip<C>>)
    requires multiset(s) == multiset(t)
    ensures Names(s) == Names(t)
  {
    forall x ensures x in Names(s) <==> x in Names(t) {
      if x in Names(s) {
        var i :| 0 <= i < |s| && s[i].name == x;
        assert s[i] in multiset(t);
      }
      if x in Names(t) {
        var i :| 0 <= i < |t| && t[i].name == x;
        assert t[i] in multiset(s);
      }
    }
  }

  lemma {:induction false} IncludedNames<C>(chips: seq<Chip<C>>, o: Ordering)
    ensures forall x :: x in Names(Included(chips, o)) <==> x in Names(chips) && x in o
    ensures DistinctNames(chips) ==> DistinctNames(Included(chips, o))
  {
    if chips != [] {
      var k := |chips| - 1;
      IncludedNames(chips[..k], o);
      NamesSnoc(chips[..k], chips[k]);
      assert chips[..k] + [chips[k]] == chips;
      if chips[k].name in o { NamesSnoc(Included(chips[..k], o), chips[k]); }
      else { assert Included(chips, o) == Included(chips[..k], o); }
    }
  }

  /** The names of the ordered chips are exactly the names of the ordering. */
  lemma OrderedNames<C>(chips: seq<Chip<C>>, o: Ordering)
    requires forall x | x in o :: x in Names(chips)
    ensures Names(ShardChipsOrdered(chips, o)) == o.Keys
    ensures DistinctNames(chips) ==> DistinctNames(ShardChipsOrdered(chips, o))
  {
    var s := Included(chips, o);
    IncludedNames(chips, o);
    NamesOfPermutation(s, SortByPlace(s, o));
    DistinctIsCount(s);
    DistinctIsCount(SortByPlace(s, o));
  }

  // ---------------------------------------------------------------------------------------
  // Alignment
  // ---------------------------------------------------------------------------------------

  predicate Increasing(a: seq<nat>) {
    forall i, j | 0 <= i < j < |a| :: a[i] < a[j]
  }

  lemma {:induction false} IncreasingGrows(a: seq<nat>, i: nat)
    requires Increasing(a) && i < |a|
    ensures a[i] >= i
  {
    if i > 0 { IncreasingGrows(a, i - 1); }
  }

  lemma {:induction false} IncreasingFits(a: seq<nat>, i: nat)
    requires Increasing(a) && i < |a| && a[|a| - 1] < |a|
    ensures a[i] <= i
    decreases |a| - i
  {
    if i + 1 < |a| { IncreasingFits(a, i + 1); }
  }

  function Places<C>(s: seq<Chip<C>>, o: Ordering): (r: seq<nat>)
    requires Placed(s, o)
    ensures |r| == |s| && forall i | 0 <= i < |s| :: r[i] == o[s[i].name]
  {
    seq(|s|, i requires 0 <= i < |s| => o[s[i].name])
  }

  /** After the machine's validation, the verifier's own check fails only when two chips share
      a name that the ordering uses: it then counts more chips than openings. */
  lemma SecondCheckExactly<C>(chips: seq<Chip<C>>, preprocessed: seq<Name>, n: nat, o: Ordering)
    requires Aligned(Names(chips), preprocessed, n, o)
    ensures Aligned(Names(ShardChipsOrdered(chips, o)), preprocessed, n, o)
    ensures |ShardChipsOrdered(chips, o)| == n <==> DistinctNames(Included(chips, o))
  {
    var t := ShardChipsOrdered(chips, o);
    OrderedNames(chips, o);
    IncludedNames(chips, o);
    assert Names(Included(chips, o)) == o.Keys;
    DistinctIsCount(Included(chips, o));
    assert |o.Keys| == |o|;
  }

  lemma SortedDistinctIncreases<C>(t: seq<Chip<C>>, o: Ordering)
    requires Placed(t, o) && Sorted(t, o) && DistinctNames(t) && Injective(o)
    ensures Increasing(Places(t, o))
  {
    var a := Places(t, o);
    forall i, j | 0 <= i < j < |a| ensures a[i] < a[j] {
      assert t[i].name != t[j].name && t[i].name in o && t[j].name in o;
    }
  }

  lemma IncreasingIsIdentity(a: seq<nat>)
    requires Increasing(a) && forall i | 0 <= i < |a| :: a[i] < |a|
    ensures forall i | 0 <= i < |a| :: a[i] == i
  {
    forall i | 0 <= i < |a| ensures a[i] == i {
      IncreasingGrows(a, i);
      IncreasingFits(a, i);
    }
  }

  /** Position `i` holds the chip whose place is `i`, and a name's place holds its chip. */
  predicate InPlace<C>(t: seq<Chip<C>>, o: Ordering, n: nat) {
    && |t| == n
    && (forall i | 0 <= i < n :: t[i].name in o && o[t[i].name] == i)
    && (forall x | x in o :: o[x] < n && t[o[x]].name == x)
  }

  /** Every chip is zipped with its own openings, and looking a name up in the ordering finds
      the chip of that name. */
  lemma ChipsMeetTheirOpenings<C>(chips: seq<Chip<C>>, preprocessed: seq<Name>, n: nat,
                                  o: Ordering)
    requires Aligned(Names(chips), preprocessed, n, o) && DistinctNames(Included(chips, o))
    ensures InPlace(ShardChipsOrdered(chips, o), o, n)
    ensures multiset(ShardChipsOrdered(chips, o)) == multiset(Included(chips, o))
  {
    hide Injective, Sorted, DistinctNames, InPlace, Bijection;
    SecondCheckExactly(chips, preprocessed, n, o);
    SortSorts(Included(chips, o), o);
    OrderedDistinct(chips, o);
    SortedInPlace(ShardChipsOrdered(chips, o), o, n);
  }

  lemma OrderedDistinct<C>(chips: seq<Chip<C>>, o: Ordering)
    requires DistinctNames(Included(chips, o))
    ensures DistinctNames(ShardChipsOrdered(chips, o))
  {
    var s := Included(chips, o);
    NamesOfPermutation(s, SortByPlace(s, o));
    DistinctIsCount(s);
    DistinctIsCount(SortByPlace(s, o));
  }

  lemma SortedInPlace<C>(t: seq<Chip<C>>, o: Ordering, n: nat)
    requires Placed(t, o) && Sorted(t, o) && DistinctNames(t) && Bijection(o, n) && |t| == n
    ensures InPlace(t, o, n)
  {
    hide Injective, Sorted, DistinctNames, Increasing;
    SortedDistinctIncreases(t, o);
    IncreasingIsIdentity(Places(t, o));
    forall x | x in o ensures t[o[x]].name == x {
      SamePlace(o, t[o[x]].name, x);
    }
  }

  lemma SamePlace(o: Ordering, x: Name, y: Name)
    requires Injective(o) && x in o && y in o && o[x] == o[y]
    ensures x == y
  {}

  /** A machine with distinct chip names passes the second validation whenever it passed the
      first, with every chip in its place. */
  lemma DistinctChipsAlign<C>(chips: seq<Chip<C>>, preprocessed: seq<Name>, n: nat, o: Ordering)
    requires Aligned(Names(chips), preprocessed, n, o) && DistinctNames(chips)
    ensures InPlace(ShardChipsOrdered(chips, o), o, n) && |ShardChipsOrdered(chips, o)| == n
    ensures Aligned(Names(ShardChipsOrdered(chips, o)), preprocessed, n, o)
  {
    hide DistinctNames, ShardChipsOrdered, Aligned, Names;
    IncludedNames(chips, o);
    SecondCheckExactly(chips, preprocessed, n, o);
    ChipsMeetTheirOpenings(chips, preprocessed, n, o);
  }

  /** Each opening stands beside the chip whose place it is. */
  predicate PairedByName<C(==), V(==)>(o: Ordering, openings: seq<V>, paired: seq<(Chip<C>, V)>) {
    && |paired| == |openings|
    && (forall i | 0 <= i < |paired| ::
          paired[i].0.name in o && o[paired[i].0.name] == i && paired[i].1 == openings[i])
    && (forall x | x in o :: o[x] < |paired| && paired[o[x]].0.name == x)
  }

  lemma PairedInPlace<C, V>(t: seq<Chip<C>>, o: Ordering, openings: seq<V>,
                            paired: seq<(Chip<C>, V)>)
    requires InPlace(t, o, |openings|) && |paired| == |openings|
    requires forall j | 0 <= j < |paired| :: paired[j] == (t[j], openings[j])
    ensures PairedByName(o, openings, paired)
  {}

  /** The whole of it for one shard: validate, order the chips, validate again. */
  method AlignShard<C, V>(chips: seq<Chip<C>>, preprocessed: seq<Name>, o: Ordering,
                          keys: seq<Name>, openings: seq<V>)
    returns (r: Verdict, paired: seq<(Chip<C>, V)>)
    requires Enumerates(keys, o) && DistinctNames(chips)
    ensures r == Ok <==> Aligned(Names(chips), preprocessed, |openings|, o)
    ensures r == Ok ==> PairedByName(o, openings, paired)
  {
    hide *;
    r := ValidateMachine(chips, preprocessed, |openings|, o, keys);
    paired := [];
    if r == Ok {
      var t := ShardChipsOrdered(chips, o);
      DistinctChipsAlign(chips, preprocessed, |openings|, o);
      r := ValidateShard(t, preprocessed, |openings|, o, keys);
      paired := seq(|openings|, i requires 0 <= i < |openings| => (t[i], openings[i]));
      PairedInPlace(t, o, openings, paired);
    }
  }
}
