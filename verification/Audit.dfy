/** Bounded, content-free telemetry over every batch a consumer has seen. */
module Audit {
  import opened Bytes
  import opened Utf8
  import opened Schema
  import opened Dynamic
  import opened Preflight
  import opened Batch
  import opened Diagnostics

  const MAX_METHODS := 256
  const MAX_METHOD_NAME := 256
  const MAX_FIELDS := 1024
  const MAX_ENUMS := 1024
  const MAX_SOCIAL := 128

  // ----- Sums over maps

  ghost function SumOf<K(!new)>(m: map<K, nat>): nat {
    if m == map[] then 0
    else
      var k :| k in m;
      m[k] + SumOf(m - {k})
  }

  lemma {:induction false} SumRemove<K(!new)>(m: map<K, nat>, k: K)
    requires k in m
    ensures SumOf(m) == m[k] + SumOf(m - {k})
    decreases |m|
  {
    var pick :| pick in m && SumOf(m) == m[pick] + SumOf(m - {pick});
    if pick != k {
      SumRemove(m - {pick}, k);
      SumRemove(m - {k}, pick);
      assert m - {pick} - {k} == m - {k} - {pick};
    }
  }

  function Bump<K>(m: map<K, nat>, k: K): map<K, nat> {
    m[k := CountIn(m, k) + 1]
  }

  lemma SumBump<K(!new)>(m: map<K, nat>, k: K)
    ensures SumOf(Bump(m, k)) == SumOf(m) + 1
  {
    var m' := Bump(m, k);
    SumRemove(m', k);
    if k in m {
      SumRemove(m, k);
      assert m' - {k} == m - {k};
    } else {
      assert m' - {k} == m;
    }
  }

  // ----- Counting in how many events a key occurs, for a bounded number of keys

  datatype Bounded<K> = Bounded(counts: map<K, nat>, untracked: nat)

  function Note<K>(b: Bounded<K>, k: K, cap: nat): Bounded<K> {
    if k in b.counts || |b.counts| < cap then b.(counts := Bump(b.counts, k))
    else b.(untracked := b.untracked + 1)
  }

  /** The number of sets in `hs` that hold `k`. */
  function Occurrences<K>(hs: seq<set<K>>, k: K): nat {
    if hs == [] then 0
    else Occurrences(hs[..|hs| - 1], k) + if k in hs[|hs| - 1] then 1 else 0
  }

  function Sizes<K>(hs: seq<set<K>>): nat {
    if hs == [] then 0 else Sizes(hs[..|hs| - 1]) + |hs[|hs| - 1]|
  }

  /**
   * At most `cap` keys are tracked, each with its exact number of occurrences; every other
   * occurrence is untracked; and a key goes untracked only once the table is full.
   */
  ghost predicate Counts<K(!new)>(b: Bounded<K>, hs: seq<set<K>>, cap: nat) {
    && |b.counts| <= cap
    && (forall k :: k in b.counts ==> b.counts[k] == Occurrences(hs, k))
    && (forall k :: k !in b.counts && Occurrences(hs, k) > 0 ==> |b.counts| == cap)
    && SumOf(b.counts) + b.untracked == Sizes(hs)
  }

  lemma CountsNothing<K(!new)>(cap: nat)
    ensures Counts<K>(Bounded(map[], 0), [], cap)
  {
  }

  lemma OccurrencesSnoc<K>(hs: seq<set<K>>, s: set<K>, k: K)
    ensures Occurrences(hs + [s], k) == Occurrences(hs, k) + if k in s then 1 else 0
    ensures Sizes(hs + [s]) == Sizes(hs) + |s|
  {
    assert (hs + [s])[..|hs|] == hs;
  }

  /** A new event, of which nothing is counted yet. */
  lemma CountsNewEvent<K(!new)>(b: Bounded<K>, hs: seq<set<K>>, cap: nat)
    requires Counts(b, hs, cap)
    ensures Counts(b, hs + [{}], cap)
  {
    hide Occurrences, Sizes, SumOf;
    forall k ensures Occurrences(hs + [{}], k) == Occurrences(hs, k) { OccurrencesSnoc(hs, {}, k); }
    SizesSnoc(hs, {});
  }

  lemma SizesSnoc<K>(hs: seq<set<K>>, s: set<K>)
    ensures Sizes(hs + [s]) == Sizes(hs) + |s|
  {
    assert (hs + [s])[..|hs|] == hs;
  }

  /** One more key of the event being counted. */
  lemma NoteKeeps<K(!new)>(b: Bounded<K>, hs: seq<set<K>>, done: set<K>, k: K, cap: nat)
    requires Counts(b, hs + [done], cap) && k !in done
    ensures Counts(Note(b, k, cap), hs + [done + {k}], cap)
  {
    hide Occurrences, Sizes, SumOf;
    forall x
      ensures Occurrences(hs + [done + {k}], x) == Occurrences(hs + [done], x) + if x == k then 1 else 0
    {
      OccurrencesSnoc(hs, done, x);
      OccurrencesSnoc(hs, done + {k}, x);
    }
    SizesSnoc(hs, done);
    SizesSnoc(hs, done + {k});
    assert |done + {k}| == |done| + 1;
    SumBump(b.counts, k);
    assert Bump(b.counts, k).Keys == b.counts.Keys + {k};
    assert |Bump(b.counts, k)| == |b.counts.Keys + {k}|;
  }

  /** Counting one event's keys, each once, in whatever order the set gives them. */
  method NoteAll<K(!new, ==)>(b: Bounded<K>, keys: set<K>, cap: nat, ghost hs: seq<set<K>>) returns (r: Bounded<K>)
    requires Counts(b, hs, cap)
    ensures Counts(r, hs + [keys], cap)
  {
    hide Counts, Note;
    r := b;
    var todo := keys;
    CountsNewEvent(b, hs, cap);
    assert keys - todo == {};
    while todo != {}
      invariant todo <= keys
      invariant Counts(r, hs + [keys - todo], cap)
      decreases |todo|
    {
      var k :| k in todo;
      NoteKeeps(r, hs, keys - todo, k, cap);
      assert keys - (todo - {k}) == (keys - todo) + {k};
      r := Note(r, k, cap);
      todo := todo - {k};
    }
    assert keys - todo == keys;
  }

  // ----- Events

  /** What the report reads from one decoded event. */
  datatype Event = Event(
    method_: Str, status: Status, emotes: nat, wireEmotes: Option<(nat, bool)>, schemaKnown: bool,
    truncated: bool, warning: bool, presenceComplete: bool, unclassifiedAction: Option<int>,
    unknownFields: seq<FieldKey>, unknownEnums: seq<EnumKey>, absent: seq<string>)

  /**
   * What the report knows about methods and normalised events: the fields whose presence it watches,
   * the name of an emote field, how many emotes an event carries, and its action if unclassified.
   */
  datatype Lens<!E> = Lens(
    observed: map<Str, seq<string>>, emoteField: map<Str, string>,
    emotes: E -> nat, unclassified: E -> Option<int>)
  {
    function Observed(name: Str): seq<string> {
      if name in observed then observed[name] else []
    }
  }

  function FirstNamed(fields: seq<FieldSchema>, name: string): Option<u32> {
    if fields == [] then None
    else if fields[0].name == name then Some(fields[0].number)
    else FirstNamed(fields[1..], name)
  }

  /** The number of the emote field, when the method has one and the schema declares it. */
  function EmoteTarget<E>(lens: Lens<E>, m: SchemaMessage): Option<u32> {
    if m.method_ !in lens.emoteField || m.schema.None? then None
    else FirstNamed(m.schema.value.fields, lens.emoteField[m.method_])
  }

  /** A decoded event as the report sees it. */
  function Seen<E>(lens: Lens<E>, e: DecodedEvent<E>): Event {
    var m := e.schema.(method_ := e.raw.method_);
    var target := EmoteTarget(lens, m);
    Event(
      e.raw.method_, e.status,
      if e.event.Known? then lens.emotes(e.event.event) else 0,
      if target.None? then None else Some(EmoteEntries(e.raw.payload, target.value, e.status != PayloadLimit)),
      m.schema.Some?, m.truncated, m.warning, !m.truncated && !m.warning,
      if e.event.Known? then lens.unclassified(e.event.event) else None,
      FieldsOf(Walk(m.fields, [])), EnumsOf(Walk(m.fields, [])), AbsentFields(m, lens.Observed(e.raw.method_)))
  }

  function SeenAll<E>(lens: Lens<E>, es: seq<DecodedEvent<E>>): (r: seq<Event>)
    ensures |r| == |es|
    ensures forall i :: 0 <= i < |es| ==> r[i] == Seen(lens, es[i])
  {
    if es == [] then [] else [Seen(lens, es[0])] + SeenAll(lens, es[1..])
  }

  /**
   * What the report sees of an event: its own method, status and flags; as unknown exactly the nodes of
   * its tree without a descriptor or a name; as absent exactly the watched names its complete tree lacks.
   */
  lemma SeenIs<E>(lens: Lens<E>, e: DecodedEvent<E>, f: FieldKey, n: EnumKey, name: string)
    ensures var seen, m := Seen(lens, e), e.schema;
            && seen.method_ == e.raw.method_ && seen.status == e.status
            && (seen.schemaKnown <==> m.schema.Some?) && seen.truncated == m.truncated && seen.warning == m.warning
            && (seen.presenceComplete <==> !m.truncated && !m.warning)
            && (f in seen.unknownFields <==>
                  exists g :: IsNode(m.fields, f.path, g) && g.descriptor.None? && g.wire == f.wireType)
            && (n in seen.unknownEnums <==>
                  exists g :: IsNode(m.fields, n.path, g) && g.value == SEnum(n.number, None, n.enumType))
            && multiset(seen.absent)[name] ==
               if seen.presenceComplete && !HasField(m.fields, name)
               then multiset(lens.Observed(e.raw.method_))[name] else 0
  {
    hide IsNode, FieldsOf, EnumsOf, Walk, Absent, HasField, EmoteEntries, IsUtf8, EmoteTarget;
    UnknownFieldsAre(e.schema.fields, f);
    UnknownEnumsAre(e.schema.fields, n);
    AbsentAre(e.schema.fields, lens.Observed(e.raw.method_), name);
  }

  /** `diagnostics` and the readings beside it. */
  method Inspect<E>(lens: Lens<E>, e: DecodedEvent<E>) returns (event: Event)
    ensures event == Seen(lens, e)
  {
    hide EmoteEntries, FieldsOf, EnumsOf, Walk, AbsentFields, EmoteTarget, IsUtf8;
    var m := e.schema.(method_ := e.raw.method_);
    var fields, enums := Visit(m.fields, [], [], []);
    var target := EmoteTarget(lens, m);
    var wire: Option<(nat, bool)> := None;
    if target.Some? {
      var entries := WireEmoteEntries(e.raw.payload, target.value, e.status != PayloadLimit);
      wire := Some(entries);
    }
    event := Event(
      e.raw.method_, e.status,
      if e.event.Known? then lens.emotes(e.event.event) else 0,
      wire, m.schema.Some?, m.truncated, m.warning, !m.truncated && !m.warning,
      if e.event.Known? then lens.unclassified(e.event.event) else None,
      fields, enums, AbsentFields(m, lens.Observed(e.raw.method_)));
  }

  /** The plain counters of one method. */
  datatype Measure =
    | Emotes | WithEmotes | WireEntries | IncompleteWire | UnknownSchema | TruncatedSchema | Warnings
    | IncompletePresence

  function Bit(b: bool): nat {
    if b then 1 else 0
  }

  function Measured(w: Measure, e: Event): nat {
    match w
    case Emotes => e.emotes
    case WithEmotes => Bit(e.emotes > 0)
    case WireEntries => if e.wireEmotes.Some? then e.wireEmotes.value.0 else 0
    case IncompleteWire => Bit(e.wireEmotes.Some? && !e.wireEmotes.value.1)
    case UnknownSchema => Bit(!e.schemaKnown)
    case TruncatedSchema => Bit(e.truncated)
    case Warnings => Bit(e.warning)
    case IncompletePresence => Bit(!e.presenceComplete)
  }

  function Total(es: seq<Event>, w: Measure): nat {
    if es == [] then 0 else Total(es[..|es| - 1], w) + Measured(w, es[|es| - 1])
  }

  function WithStatus(es: seq<Event>, s: Status): nat {
    if es == [] then 0 else WithStatus(es[..|es| - 1], s) + Bit(es[|es| - 1].status == s)
  }

  function SetOf<K>(s: seq<K>): set<K> {
    set k | k in s
  }

  function FieldSets(es: seq<Event>): seq<set<FieldKey>> {
    if es == [] then [] else FieldSets(es[..|es| - 1]) + [SetOf(es[|es| - 1].unknownFields)]
  }

  function EnumSets(es: seq<Event>): seq<set<EnumKey>> {
    if es == [] then [] else EnumSets(es[..|es| - 1]) + [SetOf(es[|es| - 1].unknownEnums)]
  }

  function ActionSet(e: Event): set<int> {
    if e.unclassifiedAction.Some? then {e.unclassifiedAction.value} else {}
  }

  function ActionSets(es: seq<Event>): seq<set<int>> {
    if es == [] then [] else ActionSets(es[..|es| - 1]) + [ActionSet(es[|es| - 1])]
  }

  /** How often `name` was reported absent. */
  function AbsentIn(es: seq<Event>, name: string): nat {
    if es == [] then 0 else AbsentIn(es[..|es| - 1], name) + multiset(es[|es| - 1].absent)[name]
  }

  // ----- One method

  datatype Counters = Counters(
    events: nat, emotes: nat, eventsWithEmotes: nat, wireEmoteEntries: nat, incompleteWireEmotePresence: nat,
    unknownSchema: nat, truncatedSchema: nat, warnings: nat, incompletePresence: nat)

  datatype MethodAudit = MethodAudit(
    counters: Counters, normalization: map<Status, nat>, absentFields: map<string, nat>,
    unknownFields: Bounded<FieldKey>, unknownEnums: Bounded<EnumKey>, social: Bounded<int>)

  const EMPTY: MethodAudit :=
    MethodAudit(Counters(0, 0, 0, 0, 0, 0, 0, 0, 0), map[], map[],
                Bounded(map[], 0), Bounded(map[], 0), Bounded(map[], 0))

  /** The plain counters are exact for the events `es`. */
  ghost predicate Plain(c: Counters, es: seq<Event>) {
    && c.events == |es|
    && c.emotes == Total(es, Emotes) && c.eventsWithEmotes == Total(es, WithEmotes)
    && c.wireEmoteEntries == Total(es, WireEntries)
    && c.incompleteWireEmotePresence == Total(es, IncompleteWire)
    && c.unknownSchema == Total(es, UnknownSchema) && c.truncatedSchema == Total(es, TruncatedSchema)
    && c.warnings == Total(es, Warnings) && c.incompletePresence == Total(es, IncompletePresence)
  }

  ghost predicate Statuses(m: map<Status, nat>, es: seq<Event>) {
    && SumOf(m) == |es|
    && forall s: Status :: CountIn(m, s) == WithStatus(es, s)
  }

  ghost predicate Absences(m: map<string, nat>, es: seq<Event>) {
    forall name: string :: CountIn(m, name) == AbsentIn(es, name)
  }

  /** Everything in `a` is exact for `es`, as far as the bounded tables reach. */
  ghost predicate Exact(a: MethodAudit, es: seq<Event>) {
    && Plain(a.counters, es) && Statuses(a.normalization, es) && Absences(a.absentFields, es)
    && Counts(a.unknownFields, FieldSets(es), MAX_FIELDS)
    && Counts(a.unknownEnums, EnumSets(es), MAX_ENUMS)
    && Counts(a.social, ActionSets(es), MAX_SOCIAL)
  }

  lemma NothingCounted()
    ensures Plain(EMPTY.counters, []) && Statuses(map[], []) && Absences(map[], [])
  {
    hide Counts;
  }

  lemma EmptyIsExact()
    ensures Exact(EMPTY, [])
  {
    hide Counts, Plain, Statuses, Absences;
    NothingCounted();
    assert FieldSets([]) == [] && EnumSets([]) == [] && ActionSets([]) == [];
    CountsNothing<FieldKey>(MAX_FIELDS);
    CountsNothing<EnumKey>(MAX_ENUMS);
    CountsNothing<int>(MAX_SOCIAL);
  }

  lemma TotalSnoc(es: seq<Event>, e: Event, w: Measure)
    ensures Total(es + [e], w) == Total(es, w) + Measured(w, e)
  {
    assert (es + [e])[..|es|] == es;
  }

  method ObservePlain(c: Counters, e: Event, ghost es: seq<Event>) returns (r: Counters)
    requires Plain(c, es)
    ensures Plain(r, es + [e])
  {
    hide Total;
    r := c.(events := c.events + 1,
            emotes := c.emotes + e.emotes,
            eventsWithEmotes := c.eventsWithEmotes + Bit(e.emotes > 0));
    if e.wireEmotes.Some? {
      r := r.(wireEmoteEntries := r.wireEmoteEntries + e.wireEmotes.value.0,
              incompleteWireEmotePresence := r.incompleteWireEmotePresence + Bit(!e.wireEmotes.value.1));
    }
    r := r.(unknownSchema := r.unknownSchema + Bit(!e.schemaKnown),
            truncatedSchema := r.truncatedSchema + Bit(e.truncated),
            warnings := r.warnings + Bit(e.warning),
            incompletePresence := r.incompletePresence + Bit(!e.presenceComplete));
    forall w: Measure ensures Total(es + [e], w) == Total(es, w) + Measured(w, e) { TotalSnoc(es, e, w); }
  }

  lemma AbsentSnoc(es: seq<Event>, e: Event, name: string)
    ensures AbsentIn(es + [e], name) == AbsentIn(es, name) + multiset(e.absent)[name]
  {
    assert (es + [e])[..|es|] == es;
  }

  lemma BumpCounts<K>(m: map<K, nat>, k: K, x: K)
    ensures CountIn(Bump(m, k), x) == CountIn(m, x) + if x == k then 1 else 0
  {
  }

  method ObserveAbsent(m: map<string, nat>, e: Event, ghost es: seq<Event>) returns (r: map<string, nat>)
    requires Absences(m, es)
    ensures Absences(r, es + [e])
  {
    hide AbsentIn, Bump;
    r := m;
    assert e.absent[..0] == [];
    for i := 0 to |e.absent|
      invariant forall name: string :: CountIn(r, name) == CountIn(m, name) + multiset(e.absent[..i])[name]
    {
      var next := Bump(r, e.absent[i]);
      assert e.absent[..i + 1] == e.absent[..i] + [e.absent[i]];
      forall name: string
        ensures CountIn(next, name) == CountIn(m, name) + multiset(e.absent[..i + 1])[name]
      {
        BumpCounts(r, e.absent[i], name);
      }
      r := next;
    }
    assert e.absent[..|e.absent|] == e.absent;
    forall name: string ensures CountIn(r, name) == AbsentIn(es + [e], name) { AbsentSnoc(es, e, name); }
  }

  lemma StatusesSnoc(m: map<Status, nat>, es: seq<Event>, e: Event)
    requires Statuses(m, es)
    ensures Statuses(Bump(m, e.status), es + [e])
  {
    SumBump(m, e.status);
    assert (es + [e])[..|es|] == es;
  }

  lemma SetsSnoc(es: seq<Event>, e: Event)
    ensures FieldSets(es + [e]) == FieldSets(es) + [SetOf(e.unknownFields)]
    ensures EnumSets(es + [e]) == EnumSets(es) + [SetOf(e.unknownEnums)]
    ensures ActionSets(es + [e]) == ActionSets(es) + [ActionSet(e)]
  {
    assert (es + [e])[..|es|] == es;
  }

  method ObserveAction(b: Bounded<int>, e: Event, ghost hs: seq<set<int>>) returns (r: Bounded<int>)
    requires Counts(b, hs, MAX_SOCIAL)
    ensures Counts(r, hs + [ActionSet(e)], MAX_SOCIAL)
  {
    hide Counts, Note;
    r := b;
    CountsNewEvent(b, hs, MAX_SOCIAL);
    if e.unclassifiedAction.Some? {
      var action := e.unclassifiedAction.value;
      NoteKeeps(b, hs, {}, action, MAX_SOCIAL);
      assert {} + {action} == ActionSet(e);
      r := Note(b, action, MAX_SOCIAL);
    }
  }

  method ObserveEvent(audit: MethodAudit, e: Event, ghost es: seq<Event>) returns (r: MethodAudit)
    requires Exact(audit, es)
    ensures Exact(r, es + [e])
    ensures r.counters.events == audit.counters.events + 1
  {
    hide Counts, Statuses, Absences, FieldSets, EnumSets, ActionSets, SetOf, ActionSet, Total;
    SetsSnoc(es, e);
    StatusesSnoc(audit.normalization, es, e);
    var counters := ObservePlain(audit.counters, e, es);
    var social := ObserveAction(audit.social, e, ActionSets(es));
    var enums := NoteAll(audit.unknownEnums, SetOf(e.unknownEnums), MAX_ENUMS, EnumSets(es));
    var absent := ObserveAbsent(audit.absentFields, e, es);
    var fields := NoteAll(audit.unknownFields, SetOf(e.unknownFields), MAX_FIELDS, FieldSets(es));
    r := MethodAudit(counters, Bump(audit.normalization, e.status), absent, fields, enums, social);
  }

  // ----- The report

  /** The events of one method, in order. */
  function Of(h: seq<Event>, name: Str): seq<Event> {
    if h == [] then []
    else Of(h[..|h| - 1], name) + if h[|h| - 1].method_ == name then [h[|h| - 1]] else []
  }

  ghost function Events(methods: map<Str, MethodAudit>): map<Str, nat> {
    map name | name in methods :: methods[name].counters.events
  }

  /**
   * The report `methods`, `untracked` after the events `h`: at most 256 methods, each exact for all
   * of its events; every other event is untracked; and a method goes untracked only when its name is
   * too long or the table is full.
   */
  ghost predicate Reports(methods: map<Str, MethodAudit>, untracked: nat, h: seq<Event>) {
    && |methods| <= MAX_METHODS
    && (forall name :: name in methods ==> |name| <= MAX_METHOD_NAME && Exact(methods[name], Of(h, name)))
    && (forall name: Str :: name !in methods && Of(h, name) != [] ==>
          |name| > MAX_METHOD_NAME || |methods| == MAX_METHODS)
    && SumOf(Events(methods)) + untracked == |h|
  }

  lemma OfSnoc(h: seq<Event>, e: Event, name: Str)
    ensures Of(h + [e], name) == Of(h, name) + if e.method_ == name then [e] else []
    ensures e.method_ != name ==> Of(h + [e], name) == Of(h, name)
  {
    assert (h + [e])[..|h|] == h;
  }

  lemma UntrackedKeeps(methods: map<Str, MethodAudit>, untracked: nat, h: seq<Event>, e: Event)
    requires Reports(methods, untracked, h)
    requires |e.method_| > MAX_METHOD_NAME || (e.method_ !in methods && |methods| >= MAX_METHODS)
    ensures Reports(methods, untracked + 1, h + [e])
  {
    hide Exact, Of, SumOf, IsUtf8;
    forall name: Str ensures Of(h + [e], name) == Of(h, name) + if e.method_ == name then [e] else [] {
      OfSnoc(h, e, name);
    }
    forall name | name in methods ensures Of(h + [e], name) == Of(h, name) {
      OfSnoc(h, e, name);
    }
  }

  lemma TrackedKeeps(methods: map<Str, MethodAudit>, untracked: nat, h: seq<Event>, e: Event, a: MethodAudit)
    requires Reports(methods, untracked, h)
    requires |e.method_| <= MAX_METHOD_NAME && (e.method_ in methods || |methods| < MAX_METHODS)
    requires Exact(a, Of(h + [e], e.method_))
    requires a.counters.events == 1 + if e.method_ in methods then methods[e.method_].counters.events else 0
    ensures Reports(methods[e.method_ := a], untracked, h + [e])
  {
    hide Exact, Of, SumOf, IsUtf8, Events;
    var methods' := methods[e.method_ := a];
    TrackedSum(methods, e.method_, a);
    forall name: Str ensures Of(h + [e], name) == Of(h, name) + if e.method_ == name then [e] else [] {
      OfSnoc(h, e, name);
    }
    forall name | name in methods'
      ensures |name| <= MAX_METHOD_NAME && Exact(methods'[name], Of(h + [e], name))
    {
      if name != e.method_ {
        OfSnoc(h, e, name);
        assert name in methods && methods'[name] == methods[name];
      }
    }
    forall name: Str | name !in methods' && Of(h + [e], name) != []
      ensures |name| > MAX_METHOD_NAME || |methods'| == MAX_METHODS
    {
      assert name !in methods && Of(h, name) != [];
    }
  }

  lemma TrackedSum(methods: map<Str, MethodAudit>, name: Str, a: MethodAudit)
    requires a.counters.events == 1 + if name in methods then methods[name].counters.events else 0
    ensures SumOf(Events(methods[name := a])) == SumOf(Events(methods)) + 1
    ensures |methods[name := a]| == |methods| + if name in methods then 0 else 1
  {
    hide SumOf, IsUtf8, Events;
    var methods' := methods[name := a];
    assert methods'.Keys == methods.Keys + {name};
    assert |methods'| == |methods.Keys + {name}|;
    EventsBump(methods, name, a);
    SumBump(Events(methods), name);
  }

  lemma EventsBump(methods: map<Str, MethodAudit>, name: Str, a: MethodAudit)
    requires a.counters.events == 1 + if name in methods then methods[name].counters.events else 0
    ensures Events(methods[name := a]) == Bump(Events(methods), name)
  {
    hide IsUtf8;
    var x, y := Events(methods[name := a]), Bump(Events(methods), name);
    assert x.Keys == y.Keys;
    forall k | k in x ensures x[k] == y[k] {
      if k != name { assert k in methods; }
    }
  }

  lemma NewMethod(methods: map<Str, MethodAudit>, untracked: nat, h: seq<Event>, name: Str)
    requires Reports(methods, untracked, h)
    requires name !in methods && |name| <= MAX_METHOD_NAME && |methods| < MAX_METHODS
    ensures Exact(EMPTY, Of(h, name))
  {
    EmptyIsExact();
  }

  class AuditReport {
    var batches: nat
    var events: nat
    var untrackedMethods: nat
    var methods: map<Str, MethodAudit>
    ghost var history: seq<Event>

    /** `events` is the per-method total plus the untracked, and each method is exact. */
    ghost predicate Valid()
      reads this
    {
      events == |history| && Reports(methods, untrackedMethods, history)
    }

    constructor ()
      ensures Valid() && history == [] && batches == 0
    {
      batches, events, untrackedMethods, methods, history := 0, 0, 0, map[], [];
    }

    method Observe<E>(lens: Lens<E>, batch: EventBatch<DecodedEvent<E>>)
      requires Valid()
      modifies this
      ensures Valid() && history == old(history) + SeenAll(lens, batch.events) && batches == old(batches) + 1
    {
      hide Reports, Seen, IsUtf8;
      ghost var seen := SeenAll(lens, batch.events);
      batches := batches + 1;
      events := events + |batch.events|;
      for i := 0 to |batch.events|
        invariant history == old(history) + seen[..i]
        invariant Reports(methods, untrackedMethods, history)
        invariant events == |old(history)| + |batch.events| && batches == old(batches) + 1
      {
        assert seen[..i + 1] == seen[..i] + [seen[i]];
        var e := Inspect(lens, batch.events[i]);
        methods, untrackedMethods := Record(methods, untrackedMethods, e, history);
        history := history + [e];
      }
      assert seen[..|seen|] == seen;
    }

    /** What a reader of the report may conclude: totals, and the size of every table. */
    lemma Facts()
      requires Valid()
      ensures events == |history| == SumOf(Events(methods)) + untrackedMethods
      ensures |methods| <= 256
      ensures forall name :: name in methods ==>
        var a := methods[name];
        && a.counters.events == |Of(history, name)| == SumOf(a.normalization)
        && |a.unknownFields.counts| <= 1024 && |a.unknownEnums.counts| <= 1024 && |a.social.counts| <= 128
    {
    }
  }

  /** One event into the table of methods. */
  method Record(methods: map<Str, MethodAudit>, untracked: nat, e: Event, ghost h: seq<Event>)
    returns (methods': map<Str, MethodAudit>, untracked': nat)
    requires Reports(methods, untracked, h)
    ensures Reports(methods', untracked', h + [e])
  {
    hide Reports, Exact, Of, IsUtf8;
    if |e.method_| > MAX_METHOD_NAME || (e.method_ !in methods && |methods| >= MAX_METHODS) {
      UntrackedKeeps(methods, untracked, h, e);
      return methods, untracked + 1;
    }
    var audit := if e.method_ in methods then methods[e.method_] else EMPTY;
    StartsExact(methods, untracked, h, e.method_);
    OfSnoc(h, e, e.method_);
    var r := ObserveEvent(audit, e, Of(h, e.method_));
    TrackedKeeps(methods, untracked, h, e, r);
    return methods[e.method_ := r], untracked;
  }

  lemma StartsExact(methods: map<Str, MethodAudit>, untracked: nat, h: seq<Event>, name: Str)
    requires Reports(methods, untracked, h)
    requires |name| <= MAX_METHOD_NAME && (name in methods || |methods| < MAX_METHODS)
    ensures Exact(if name in methods then methods[name] else EMPTY, Of(h, name))
  {
    hide Exact, Of;
    if name !in methods {
      NewMethod(methods, untracked, h, name);
    }
  }
}
