/** Comparing the parameters two signers put on the same request. */
module Compare {
  import opened Bytes

  type Name = string

  datatype Digest = Digest(sha256: string, bytes: u64)

  datatype Parameter = Parameter(name: Name, value: Digest)

  /** The differences parameter lists can show. */
  datatype Difference =
    | MissingParameter(name: Name)
    | UnexpectedParameter(name: Name)
    | ParameterValue(name: Name, oracle: Digest, candidate: Digest)
    | ParameterOrder

  /** The values given under `name`, in order. */
  function Values(ps: seq<Parameter>, name: Name): seq<Digest> {
    if ps == [] then []
    else
      var p, rest := ps[|ps| - 1], Values(ps[..|ps| - 1], name);
      if p.name == name then rest + [p.value] else rest
  }

  function Count(ps: seq<Parameter>, name: Name): nat {
    |Values(ps, name)|
  }

  function Names(ps: seq<Parameter>): seq<Name> {
    seq(|ps|, i requires 0 <= i < |ps| => ps[i].name)
  }

  ghost predicate SameCounts(a: seq<Parameter>, b: seq<Parameter>) {
    forall name: Name :: Count(a, name) == Count(b, name)
  }

  // ----- Counting

  type Tally = map<Name, nat>

  ghost predicate Tallies(t: Tally, ps: seq<Parameter>) {
    && (forall name: Name :: CountIn(t, name) == Count(ps, name))
    && (forall name :: name in t ==> t[name] > 0)
  }

  lemma CountSnoc(ps: seq<Parameter>, i: nat, name: Name)
    requires i < |ps|
    ensures Values(ps[..i + 1], name) == Values(ps[..i], name) + if ps[i].name == name then [ps[i].value] else []
  {
    assert ps[..i + 1][..i] == ps[..i];
  }

  method Counts(ps: seq<Parameter>) returns (t: Tally)
    ensures Tallies(t, ps)
  {
    hide Values;
    t := map[];
    forall name: Name ensures Count([], name) == 0 { CountNone(name); }
    assert ps[..0] == [];
    for i := 0 to |ps|
      invariant Tallies(t, ps[..i])
    {
      forall name: Name
        ensures Count(ps[..i + 1], name) == Count(ps[..i], name) + if ps[i].name == name then 1 else 0
      {
        CountSnoc(ps, i, name);
      }
      var t' := t[ps[i].name := CountIn(t, ps[i].name) + 1];
      forall name: Name ensures CountIn(t', name) == Count(ps[..i + 1], name) {
        assert CountIn(t, name) == Count(ps[..i], name);
        CountUpdated(t, ps[i].name, CountIn(t, ps[i].name) + 1, name);
      }
      t := t';
    }
    assert ps[..|ps|] == ps;
  }

  lemma CountUpdated(t: Tally, key: Name, n: nat, name: Name)
    ensures CountIn(t[key := n], name) == if key == name then n else CountIn(t, name)
  {
  }

  lemma CountNone(name: Name)
    ensures Values([], name) == []
  {
  }

  lemma TalliesEqual(s: Tally, t: Tally, a: seq<Parameter>, b: seq<Parameter>)
    requires Tallies(s, a) && Tallies(t, b)
    ensures s == t <==> SameCounts(a, b)
  {
    hide Values;
    if s == t {
      forall name: Name ensures Count(a, name) == Count(b, name) {
        assert CountIn(s, name) == CountIn(t, name);
      }
    } else if SameCounts(a, b) {
      forall name ensures name in s <==> name in t {
        assert CountIn(s, name) == CountIn(t, name);
      }
      forall name | name in s ensures s[name] == t[name] {
        assert CountIn(s, name) == CountIn(t, name);
      }
      assert false;
    }
  }

  // ----- Missing and unexpected names

  datatype Side = Missing | Unexpected

  function Entry(side: Side, name: Name): Difference {
    if side == Missing then MissingParameter(name) else UnexpectedParameter(name)
  }

  function Excess(x: nat, y: nat): nat {
    if x > y then x - y else 0
  }

  /** How often `d` is pushed when the names counted in `from` are checked against `against`. */
  function Pushed(side: Side, from: Tally, against: Tally, d: Difference): nat {
    if (d.MissingParameter? && side == Missing) || (d.UnexpectedParameter? && side == Unexpected)
    then Excess(CountIn(from, d.name), CountIn(against, d.name)) else 0
  }

  /** The loop over a tally, in whatever order the map gives its names. */
  method PushExcess(side: Side, from: Tally, against: Tally, differences: seq<Difference>)
    returns (out: seq<Difference>)
    ensures differences <= out
    ensures forall d :: multiset(out[|differences|..])[d] == Pushed(side, from, against, d)
  {
    out := differences;
    var todo := from.Keys;
    ghost var added := [];
    ghost var done: Tally := map[];
    while todo != {}
      invariant out == differences + added
      invariant todo <= from.Keys && done.Keys == from.Keys - todo
      invariant forall name :: name in done ==> done[name] == from[name]
      invariant forall d :: multiset(added)[d] == Pushed(side, done, against, d)
      decreases |todo|
    {
      var name :| name in todo;
      var n := Excess(from[name], CountIn(against, name));
      CopiesCount(Entry(side, name), n);
      for i := 0 to n
        invariant out == differences + (added + Copies(Entry(side, name), i))
      {
        out := out + [Entry(side, name)];
      }
      ghost var more := Copies(Entry(side, name), n);
      PushedMore(side, done, against, name, from[name], added, more);
      added, done, todo := added + more, done[name := from[name]], todo - {name};
    }
    assert done == from;
    assert out[|differences|..] == added;
  }

  function Copies(d: Difference, n: nat): seq<Difference> {
    if n == 0 then [] else Copies(d, n - 1) + [d]
  }

  lemma {:induction false} CopiesCount(d: Difference, n: nat)
    ensures forall e :: multiset(Copies(d, n))[e] == if e == d then n else 0
  {
    if n > 0 {
      CopiesCount(d, n - 1);
    }
  }

  lemma PushedMore(
    side: Side, done: Tally, against: Tally, name: Name, count: nat, added: seq<Difference>, more: seq<Difference>)
    requires name !in done
    requires forall d :: multiset(added)[d] == Pushed(side, done, against, d)
    requires forall d :: multiset(more)[d] ==
                         if d == Entry(side, name) then Excess(count, CountIn(against, name)) else 0
    ensures forall d :: multiset(added + more)[d] == Pushed(side, done[name := count], against, d)
  {
    assert multiset(added + more) == multiset(added) + multiset(more);
  }

  // ----- Values

  /** What the k-th value under a name is compared with, when the other list has a k-th one. */
  function ValueDifference(p: Parameter, others: seq<Digest>, k: nat): seq<Difference> {
    if k < |others| && p.value != others[k] then [ParameterValue(p.name, p.value, others[k])] else []
  }

  /** The value differences of the first `n` parameters of `oracle`. */
  function ValueDifferences(oracle: seq<Parameter>, candidate: seq<Parameter>, n: nat): seq<Difference>
    requires n <= |oracle|
  {
    if n == 0 then []
    else
      var p := oracle[n - 1];
      ValueDifferences(oracle, candidate, n - 1) +
      ValueDifference(p, Values(candidate, p.name), Count(oracle[..n - 1], p.name))
  }

  type Grouped = map<Name, seq<Digest>>

  function GetAll(g: Grouped, name: Name): seq<Digest> {
    if name in g then g[name] else []
  }

  lemma GetAllUpdated(g: Grouped, key: Name, vs: seq<Digest>, name: Name)
    ensures GetAll(g[key := vs], name) == if key == name then vs else GetAll(g, name)
  {
  }

  method GroupByName(ps: seq<Parameter>) returns (g: Grouped)
    ensures forall name: Name :: GetAll(g, name) == Values(ps, name)
  {
    hide Values;
    g := map[];
    forall name: Name ensures Values([], name) == [] { CountNone(name); }
    assert ps[..0] == [];
    for i := 0 to |ps|
      invariant forall name: Name :: GetAll(g, name) == Values(ps[..i], name)
    {
      forall name: Name
        ensures Values(ps[..i + 1], name) == Values(ps[..i], name) + if ps[i].name == name then [ps[i].value] else []
      {
        CountSnoc(ps, i, name);
      }
      var g' := g[ps[i].name := GetAll(g, ps[i].name) + [ps[i].value]];
      forall name: Name ensures GetAll(g', name) == Values(ps[..i + 1], name) {
        assert GetAll(g, name) == Values(ps[..i], name);
        GetAllUpdated(g, ps[i].name, GetAll(g, ps[i].name) + [ps[i].value], name);
      }
      g := g';
    }
    assert ps[..|ps|] == ps;
  }

  method CompareValues(oracle: seq<Parameter>, candidate: seq<Parameter>, differences: seq<Difference>)
    returns (out: seq<Difference>)
    ensures out == differences + ValueDifferences(oracle, candidate, |oracle|)
  {
    hide Values;
    out := differences;
    var byName := GroupByName(candidate);
    var occurrences: Tally := map[];
    forall name: Name ensures Count([], name) == 0 { CountNone(name); }
    assert oracle[..0] == [];
    for i := 0 to |oracle|
      invariant out == differences + ValueDifferences(oracle, candidate, i)
      invariant forall name: Name :: CountIn(occurrences, name) == Count(oracle[..i], name)
    {
      var p := oracle[i];
      var k := CountIn(occurrences, p.name);
      var values := GetAll(byName, p.name);
      ghost var found := ValueDifference(p, values, k);
      assert ValueDifferences(oracle, candidate, i + 1) == ValueDifferences(oracle, candidate, i) + found;
      if k < |values| && p.value != values[k] {
        out := out + [ParameterValue(p.name, p.value, values[k])];
      }
      var occurrences' := occurrences[p.name := k + 1];
      forall name: Name ensures CountIn(occurrences', name) == Count(oracle[..i + 1], name) {
        assert CountIn(occurrences, name) == Count(oracle[..i], name);
        CountSnoc(oracle, i, name);
        CountUpdated(occurrences, p.name, k + 1, name);
      }
      occurrences := occurrences';
    }
  }

  // ----- The whole comparison

  /** How often each name entry occurs among the differences `counted`, whatever their order. */
  ghost predicate CountsReported(oracle: seq<Parameter>, candidate: seq<Parameter>, counted: seq<Difference>) {
    forall d :: multiset(counted)[d] ==
      match d
      case MissingParameter(name) => Excess(Count(oracle, name), Count(candidate, name))
      case UnexpectedParameter(name) => Excess(Count(candidate, name), Count(oracle, name))
      case _ => 0
  }

  ghost function OrderDifference(oracle: seq<Parameter>, candidate: seq<Parameter>): seq<Difference> {
    if SameCounts(oracle, candidate) && Names(oracle) != Names(candidate) then [ParameterOrder] else []
  }

  lemma CountsCombine(
    s: Tally, t: Tally, oracle: seq<Parameter>, candidate: seq<Parameter>,
    missing: seq<Difference>, unexpected: seq<Difference>)
    requires Tallies(s, oracle) && Tallies(t, candidate)
    requires forall d :: multiset(missing)[d] == Pushed(Missing, s, t, d)
    requires forall d :: multiset(unexpected)[d] == Pushed(Unexpected, t, s, d)
    ensures CountsReported(oracle, candidate, missing + unexpected)
  {
    hide Values;
    assert multiset(missing + unexpected) == multiset(missing) + multiset(unexpected);
  }

  /** All that the comparison adds, up to the order in which the maps give their names. */
  ghost predicate Compared(oracle: seq<Parameter>, candidate: seq<Parameter>, added: seq<Difference>) {
    exists counted: seq<Difference> ::
      && CountsReported(oracle, candidate, counted)
      && added == counted + (OrderDifference(oracle, candidate) + ValueDifferences(oracle, candidate, |oracle|))
  }

  method CompareParameters(oracle: seq<Parameter>, candidate: seq<Parameter>, differences: seq<Difference>)
    returns (out: seq<Difference>)
    ensures differences <= out
    ensures Compared(oracle, candidate, out[|differences|..])
    ensures out == differences <==> oracle == candidate
  {
    hide Values, ValueDifferences, SameCounts, CountsReported, Tallies, Pushed, OrderDifference;
    var oracleCounts := Counts(oracle);
    var candidateCounts := Counts(candidate);
    var one := PushExcess(Missing, oracleCounts, candidateCounts, differences);
    var two := PushExcess(Unexpected, candidateCounts, oracleCounts, one);
    ghost var missing, unexpected := one[|differences|..], two[|one|..];
    ghost var counted := missing + unexpected;
    assert two == differences + counted;
    CountsCombine(oracleCounts, candidateCounts, oracle, candidate, missing, unexpected);
    TalliesEqual(oracleCounts, candidateCounts, oracle, candidate);
    OrderIs(oracle, candidate);
    var three := two;
    if oracleCounts == candidateCounts && Names(oracle) != Names(candidate) {
      three := three + [ParameterOrder];
    }
    assert three == differences + (counted + OrderDifference(oracle, candidate));
    out := CompareValues(oracle, candidate, three);
    ghost var added := counted + (OrderDifference(oracle, candidate) + ValueDifferences(oracle, candidate, |oracle|));
    assert out == differences + added;
    assert out[|differences|..] == added;
    NoDifferenceIffSame(oracle, candidate, added);
  }

  lemma OrderIs(oracle: seq<Parameter>, candidate: seq<Parameter>)
    ensures OrderDifference(oracle, candidate) ==
            if SameCounts(oracle, candidate) && Names(oracle) != Names(candidate) then [ParameterOrder] else []
  {
  }

  // ----- What no difference means

  lemma {:induction false} SameNamesSameCounts(a: seq<Parameter>, b: seq<Parameter>, name: Name)
    requires Names(a) == Names(b)
    ensures Count(a, name) == Count(b, name)
  {
    assert |a| == |Names(a)| == |Names(b)| == |b|;
    if a != [] {
      var n := |a| - 1;
      assert Names(a[..n]) == Names(a)[..n] && Names(b[..n]) == Names(b)[..n];
      assert a[n].name == Names(a)[n] == Names(b)[n] == b[n].name;
      SameNamesSameCounts(a[..n], b[..n], name);
    }
  }

  /** Parameter `i` is the one under its name that as many of the same name precede. */
  lemma {:induction false} ValueAt(ps: seq<Parameter>, i: nat, n: nat)
    requires i < n <= |ps|
    ensures var name := ps[i].name;
            Count(ps[..i], name) < Count(ps[..n], name) && Values(ps[..n], name)[Count(ps[..i], name)] == ps[i].value
    decreases n
  {
    hide Values;
    CountSnoc(ps, n - 1, ps[i].name);
    if i < n - 1 {
      ValueAt(ps, i, n - 1);
    }
  }

  lemma {:induction false} NoneFound(oracle: seq<Parameter>, candidate: seq<Parameter>, n: nat, i: nat)
    requires i < n <= |oracle|
    requires ValueDifferences(oracle, candidate, n) == []
    ensures ValueDifference(oracle[i], Values(candidate, oracle[i].name), Count(oracle[..i], oracle[i].name)) == []
    decreases n
  {
    hide Values, ValueDifference;
    if i < n - 1 {
      NoneFound(oracle, candidate, n - 1, i);
    }
  }

  lemma {:induction false} NoneOnItself(ps: seq<Parameter>, n: nat)
    requires n <= |ps|
    ensures ValueDifferences(ps, ps, n) == []
  {
    hide Values;
    if n > 0 {
      NoneOnItself(ps, n - 1);
      ValueAt(ps, n - 1, |ps|);
      assert ps[..|ps|] == ps;
    }
  }

  lemma SameValueAt(a: seq<Parameter>, b: seq<Parameter>, i: nat)
    requires Names(a) == Names(b) && ValueDifferences(a, b, |a|) == []
    requires i < |a| == |b|
    ensures a[i] == b[i]
  {
    hide Values, ValueDifferences;
    var name := a[i].name;
    assert name == Names(a)[i] == Names(b)[i] == b[i].name;
    assert Count(a[..i], name) == Count(b[..i], name) by {
      assert Names(a[..i]) == Names(a)[..i] && Names(b[..i]) == Names(b)[..i];
      SameNamesSameCounts(a[..i], b[..i], name);
    }
    NoneFound(a, b, |a|, i);
    ValueAt(b, i, |b|);
    assert b[..|b|] == b;
  }

  /** With the names in the same order, equal k-th values per name make the lists equal. */
  lemma SameListsIfNoValueDiffers(a: seq<Parameter>, b: seq<Parameter>)
    requires Names(a) == Names(b) && ValueDifferences(a, b, |a|) == []
    ensures a == b
  {
    hide Values, ValueDifferences, ValueDifference;
    assert |a| == |Names(a)| == |Names(b)| == |b|;
    forall i | 0 <= i < |a| ensures a[i] == b[i] { SameValueAt(a, b, i); }
  }

  lemma NothingCounted(a: seq<Parameter>, counted: seq<Difference>)
    requires CountsReported(a, a, counted)
    ensures counted == []
  {
    hide Values;
    assert multiset(counted) == multiset{};
    assert |multiset(counted)| == |counted|;
  }

  /** The comparison adds nothing exactly when the two lists are the same sequence. */
  lemma NoDifferenceIffSame(a: seq<Parameter>, b: seq<Parameter>, added: seq<Difference>)
    requires Compared(a, b, added)
    ensures added == [] <==> a == b
  {
    hide Values, ValueDifferences;
    var counted :| CountsReported(a, b, counted) &&
                   added == counted + (OrderDifference(a, b) + ValueDifferences(a, b, |a|));
    if a == b {
      NoneOnItself(a, |a|);
      NothingCounted(a, counted);
    } else if added == [] {
      assert counted == [] && OrderDifference(a, b) == [] && ValueDifferences(a, b, |a|) == [];
      forall name: Name ensures Count(a, name) == Count(b, name) {
        assert multiset(counted)[MissingParameter(name)] == 0;
        assert multiset(counted)[UnexpectedParameter(name)] == 0;
      }
      SameListsIfNoValueDiffers(a, b);
    }
  }

  lemma {:induction false} OnlyValues(a: seq<Parameter>, b: seq<Parameter>, n: nat)
    requires n <= |a|
    ensures forall d :: d in ValueDifferences(a, b, n) ==> d.ParameterValue?
  {
    hide Values;
    if n > 0 {
      OnlyValues(a, b, n - 1);
    }
  }

  /** Per name, missing minus unexpected entries is the difference of the counts; one of them is none. */
  lemma MissingMinusUnexpected(a: seq<Parameter>, b: seq<Parameter>, added: seq<Difference>, name: Name)
    requires Compared(a, b, added)
    ensures multiset(added)[MissingParameter(name)] == Excess(Count(a, name), Count(b, name))
    ensures multiset(added)[UnexpectedParameter(name)] == Excess(Count(b, name), Count(a, name))
    ensures multiset(added)[MissingParameter(name)] + Count(b, name) ==
            multiset(added)[UnexpectedParameter(name)] + Count(a, name)
  {
    hide Values, ValueDifferences;
    var rest := OrderDifference(a, b) + ValueDifferences(a, b, |a|);
    var counted :| CountsReported(a, b, counted) && added == counted + rest;
    OnlyValues(a, b, |a|);
    forall d | d in rest ensures d.ParameterValue? || d.ParameterOrder? {}
    assert MissingParameter(name) !in rest && UnexpectedParameter(name) !in rest;
    assert multiset(counted + rest) == multiset(counted) + multiset(rest);
  }

  // ----- Which values are reported

  /** `b[j]` is the parameter that `a[i]` is compared with: the same name, as often seen before. */
  predicate Counterpart(a: seq<Parameter>, i: nat, b: seq<Parameter>, j: nat)
    requires i < |a| && j < |b|
  {
    a[i].name == b[j].name && Count(a[..i], a[i].name) == Count(b[..j], b[j].name)
  }

  lemma {:induction false} KthValueAt(b: seq<Parameter>, n: nat, name: Name, k: nat) returns (j: nat)
    requires n <= |b| && k < Count(b[..n], name)
    ensures j < n && b[j].name == name && Count(b[..j], name) == k
    ensures Values(b[..n], name)[k] == b[j].value
    decreases n
  {
    hide Values;
    CountNone(name);
    assert b[..0] == [];
    CountSnoc(b, n - 1, name);
    if k < Count(b[..n - 1], name) {
      j := KthValueAt(b, n - 1, name, k);
    } else {
      j := n - 1;
    }
  }

  lemma CounterpartValue(a: seq<Parameter>, i: nat, b: seq<Parameter>, j: nat)
    requires i < |a| && j < |b| && Counterpart(a, i, b, j)
    ensures var name, k := a[i].name, Count(a[..i], a[i].name);
            k < Count(b, name) && Values(b, name)[k] == b[j].value
  {
    hide Values;
    ValueAt(b, j, |b|);
    assert b[..|b|] == b;
  }

  /** `d` reports that `a[i]` and its counterpart differ: the name, then the oracle's value, then the candidate's. */
  ghost predicate ReportsAt(a: seq<Parameter>, b: seq<Parameter>, i: nat, d: Difference)
    requires i < |a|
  {
    exists j: nat :: j < |b| && Counterpart(a, i, b, j) && a[i].value != b[j].value
                     && d == ParameterValue(a[i].name, a[i].value, b[j].value)
  }

  lemma OneValueIs(a: seq<Parameter>, b: seq<Parameter>, i: nat, d: Difference)
    requires i < |a|
    ensures d in ValueDifference(a[i], Values(b, a[i].name), Count(a[..i], a[i].name)) <==> ReportsAt(a, b, i, d)
  {
    hide Values;
    var name, k := a[i].name, Count(a[..i], a[i].name);
    if d in ValueDifference(a[i], Values(b, name), k) {
      assert b[..|b|] == b;
      var j := KthValueAt(b, |b|, name, k);
      assert Counterpart(a, i, b, j);
    }
    if ReportsAt(a, b, i, d) {
      var j: nat :| j < |b| && Counterpart(a, i, b, j) && a[i].value != b[j].value
                    && d == ParameterValue(a[i].name, a[i].value, b[j].value);
      CounterpartValue(a, i, b, j);
    }
  }

  /** A value difference is reported exactly for each parameter that differs from its counterpart. */
  lemma {:induction false} ValuesReported(a: seq<Parameter>, b: seq<Parameter>, n: nat, d: Difference)
    requires n <= |a|
    ensures d in ValueDifferences(a, b, n) <==> exists i: nat :: i < n && ReportsAt(a, b, i, d)
  {
    hide Values, ReportsAt, ValueDifference;
    if n > 0 {
      ValuesReported(a, b, n - 1, d);
      OneValueIs(a, b, n - 1, d);
    }
  }
}
