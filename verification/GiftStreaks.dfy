/** Gift streaks: the messages of one held button, collapsed into a single report. */
module GiftStreaks {
  import opened Bytes

  datatype Key = Key(user: u64, gift: u64)

  /** A finished or pending gift: `CompletedGift`. */
  datatype Gift = Gift(key: Key, count: u64)

  datatype Call =
    | Observe(key: Key, repeatCount: u64, repeatEnd: bool, streakable: bool)
    | TakeOpen

  type Streaks = map<Key, u64>

  /** What a message counts for: never less than one gift. */
  function Counted(c: Call): u64
    requires c.Observe?
  {
    Max(c.repeatCount, 1)
  }

  function Running(open: Streaks, k: Key): u64 {
    if k in open then open[k] else 0
  }

  /** The open streaks after a call. */
  function After(open: Streaks, c: Call): Streaks {
    if c.TakeOpen? then map[]
    else if !c.streakable then open
    else if c.repeatEnd then open - {c.key}
    else open[c.key := Max(Running(open, c.key), Counted(c))]
  }

  /** What an `observe` call reports. */
  function Reported(open: Streaks, c: Call): Option<Gift>
    requires c.Observe?
  {
    if !c.streakable then Some(Gift(c.key, Counted(c)))
    else if c.repeatEnd then Some(Gift(c.key, Max(Running(open, c.key), Counted(c))))
    else None
  }

  function AfterAll(h: seq<Call>): Streaks {
    if h == [] then map[] else After(AfterAll(h[..|h| - 1]), h[|h| - 1])
  }

  // ----- The specification: a streak is read off the history

  predicate Adds(c: Call, k: Key) {
    c.Observe? && c.streakable && c.key == k
  }

  predicate Closes(c: Call, k: Key) {
    c.TakeOpen? || (Adds(c, k) && c.repeatEnd)
  }

  /** Message `j` belongs to the streak of `k` that is still unfinished after `h`. */
  predicate InStreak(h: seq<Call>, k: Key, j: int) {
    0 <= j < |h| && Adds(h[j], k) && forall i :: j <= i < |h| ==> !Closes(h[i], k)
  }

  ghost predicate Unfinished(h: seq<Call>, k: Key) {
    exists j :: InStreak(h, k, j)
  }

  /** `m` is the largest repeat count among the messages of the unfinished streak of `k`, and at least one. */
  ghost predicate IsTotal(h: seq<Call>, k: Key, m: u64) {
    && Unfinished(h, k) && m >= 1
    && (forall j :: InStreak(h, k, j) ==> h[j].repeatCount <= m)
    && (m == 1 || exists j :: InStreak(h, k, j) && h[j].repeatCount == m)
  }

  lemma OneTotal(h: seq<Call>, k: Key, m: u64, n: u64)
    requires IsTotal(h, k, m) && IsTotal(h, k, n)
    ensures m == n
  {
  }

  /** The messages of a streak after one more call. */
  lemma InStreakSnoc(h: seq<Call>, c: Call, k: Key, j: int)
    ensures InStreak(h + [c], k, j) <==>
            !Closes(c, k) && (InStreak(h, k, j) || (j == |h| && Adds(c, k)))
    ensures 0 <= j < |h| ==> (h + [c])[j] == h[j]
  {
    var h' := h + [c];
    assert h'[|h|] == c;
    assert forall i :: 0 <= i < |h| ==> h'[i] == h[i];
    if InStreak(h', k, j) && 0 <= j < |h| {
      assert forall i :: j <= i < |h| ==> !Closes(h'[i], k);
    }
  }

  lemma TotalSnoc(h: seq<Call>, c: Call, k: Key, m: u64)
    requires Adds(c, k) && !c.repeatEnd
    requires if Unfinished(h, k) then IsTotal(h, k, m) else m == 0
    ensures IsTotal(h + [c], k, Max(m, Counted(c)))
  {
    var h' := h + [c];
    var top := Max(m, Counted(c));
    forall j | InStreak(h', k, j)
      ensures h'[j].repeatCount <= top
    {
      InStreakSnoc(h, c, k, j);
    }
    InStreakSnoc(h, c, k, |h|);
    assert InStreak(h', k, |h|);
    if top > 1 && Unfinished(h, k) && m == top {
      var j :| InStreak(h, k, j) && h[j].repeatCount == m;
      InStreakSnoc(h, c, k, j);
      assert InStreak(h', k, j) && h'[j].repeatCount == top;
    } else if top > 1 {
      assert h'[|h|].repeatCount == top;
    }
  }

  lemma UnrelatedSnoc(h: seq<Call>, c: Call, k: Key, m: u64)
    requires !Adds(c, k) && !Closes(c, k)
    ensures Unfinished(h + [c], k) <==> Unfinished(h, k)
    ensures IsTotal(h, k, m) ==> IsTotal(h + [c], k, m)
  {
    var h' := h + [c];
    forall j
      ensures InStreak(h', k, j) <==> InStreak(h, k, j)
      ensures InStreak(h, k, j) ==> h'[j] == h[j]
    {
      InStreakSnoc(h, c, k, j);
    }
    if IsTotal(h, k, m) && m > 1 {
      var j :| InStreak(h, k, j) && h[j].repeatCount == m;
      assert InStreak(h', k, j) && h'[j].repeatCount == m;
    }
  }

  /** After every history, the open streaks are the unfinished ones, each with its largest count. */
  lemma {:induction false} EveryHistory(h: seq<Call>, k: Key)
    ensures k in AfterAll(h) <==> Unfinished(h, k)
    ensures k in AfterAll(h) ==> IsTotal(h, k, AfterAll(h)[k])
  {
    hide InStreak;
    if h == [] {
      NothingYet(k);
    } else {
      var p, c := h[..|h| - 1], h[|h| - 1];
      assert h == p + [c];
      EveryHistory(p, k);
      if Closes(c, k) {
        forall j ensures !InStreak(h, k, j) { InStreakSnoc(p, c, k, j); }
      } else if Adds(c, k) {
        TotalSnoc(p, c, k, Running(AfterAll(p), k));
      } else {
        UnrelatedSnoc(p, c, k, Running(AfterAll(p), k));
      }
    }
  }

  lemma NothingYet(k: Key)
    ensures !Unfinished([], k)
  {
  }

  /**
   * A call completes a streakable gift exactly at `repeat_end`, with the largest count of that
   * sender and gift since its last completion or drain, this message included.
   */
  lemma EveryCompletion(h: seq<Call>, c: Call)
    requires c.Observe?
    ensures var r := Reported(AfterAll(h), c);
            && (r.Some? <==> !c.streakable || c.repeatEnd)
            && (r.Some? ==> r.value.key == c.key)
            && (!c.streakable ==>
                  && r == Some(Gift(c.key, if c.repeatCount == 0 then 1 else c.repeatCount))
                  && AfterAll(h + [c]) == AfterAll(h))
            && (c.streakable && c.repeatEnd ==>
                  IsTotal(h + [c.(repeatEnd := false)], c.key, r.value.count) && !Unfinished(h + [c], c.key))
  {
    assert (h + [c])[..|h|] == h;
    EveryHistory(h, c.key);
    EveryHistory(h + [c], c.key);
    if c.streakable && c.repeatEnd {
      TotalSnoc(h, c.(repeatEnd := false), c.key, Running(AfterAll(h), c.key));
    }
  }

  /** The count reported is the final message's own exactly when no earlier message of the streak topped it. */
  lemma CountIsFinalIff(h: seq<Call>, c: Call)
    requires c.Observe? && c.streakable && c.repeatEnd
    ensures Reported(AfterAll(h), c).value.count == Counted(c) <==>
            forall j :: InStreak(h, c.key, j) ==> h[j].repeatCount <= Max(c.repeatCount, 1)
  {
    hide InStreak;
    EveryHistory(h, c.key);
    if c.key !in AfterAll(h) {
      assert !Unfinished(h, c.key);
    }
  }

  /** Five gifts and then a final message that says three: five are reported. */
  lemma CountIsNotFinal(k: Key)
    ensures Reported(AfterAll([Observe(k, 5, false, true)]), Observe(k, 3, true, true)) == Some(Gift(k, 5))
  {
    var h := [Observe(k, 5, false, true)];
    assert h[..0] == [] && AfterAll([]) == map[];
  }

  // ----- Keys never affect each other

  /** The calls that concern `k`: its own messages and the drains. */
  function Only(h: seq<Call>, k: Key): seq<Call> {
    if h == [] then []
    else
      var p, c := h[..|h| - 1], h[|h| - 1];
      Only(p, k) + if c.TakeOpen? || c.key == k then [c] else []
  }

  lemma {:induction false} KeysIndependent(h: seq<Call>, k: Key)
    ensures k in AfterAll(h) <==> k in AfterAll(Only(h, k))
    ensures Running(AfterAll(h), k) == Running(AfterAll(Only(h, k)), k)
  {
    if h != [] {
      var p, c := h[..|h| - 1], h[|h| - 1];
      KeysIndependent(p, k);
      if c.TakeOpen? || c.key == k {
        var o := Only(h, k);
        assert o[..|o| - 1] == Only(p, k) && o[|o| - 1] == c;
      } else {
        assert Only(h, k) == Only(p, k);
      }
    }
  }

  // ----- Draining in key order

  predicate Less(a: Key, b: Key) {
    a.user < b.user || (a.user == b.user && a.gift < b.gift)
  }

  predicate InOrder(s: seq<Gift>) {
    forall i, j :: 0 <= i < j < |s| ==> Less(s[i].key, s[j].key)
  }

  /** `s` lists the streaks of `open`, each once, in key order. */
  ghost predicate Lists(s: seq<Gift>, open: Streaks) {
    && InOrder(s)
    && forall g: Gift :: g in s <==> g.key in open && open[g.key] == g.count
  }

  /** Whatever order the map is drained in, there is one possible answer. */
  lemma {:induction false} OneListing(s: seq<Gift>, t: seq<Gift>, open: Streaks)
    requires Lists(s, open) && Lists(t, open)
    ensures s == t
    decreases |s|
  {
    hide Lists;
    SameHead(s, t, open);
    if s != [] && t != [] {
      ListsRest(s, open);
      ListsRest(t, open);
      OneListing(s[1..], t[1..], open - {s[0].key});
      assert s == [s[0]] + s[1..] && t == [t[0]] + t[1..];
    }
  }

  lemma SameHead(s: seq<Gift>, t: seq<Gift>, open: Streaks)
    requires Lists(s, open) && Lists(t, open)
    ensures s == [] <==> t == []
    ensures s != [] && t != [] ==> s[0] == t[0]
  {
    forall g: Gift ensures g in s <==> g in t {}
    if s != [] {
      assert s[0] in t;
    }
    if t != [] {
      assert t[0] in s;
    }
  }

  lemma ListsRest(s: seq<Gift>, open: Streaks)
    requires s != [] && Lists(s, open)
    ensures Lists(s[1..], open - {s[0].key})
  {
    var rest, open' := s[1..], open - {s[0].key};
    forall g: Gift
      ensures g in rest <==> g.key in open' && open'[g.key] == g.count
    {
      if g in rest {
        var i :| 0 <= i < |rest| && rest[i] == g;
        assert s[i + 1] == g && Less(s[0].key, g.key);
        assert g in s;
      }
      assert s == [s[0]] + rest;
    }
  }

  /** Puts `g` where its key belongs. */
  method InsertByKey(s: seq<Gift>, g: Gift) returns (r: seq<Gift>)
    requires InOrder(s)
    requires forall i :: 0 <= i < |s| ==> s[i].key != g.key
    ensures InOrder(r)
    ensures forall x: Gift :: x in r <==> x in s || x == g
  {
    var i := 0;
    while i < |s| && Less(s[i].key, g.key)
      invariant i <= |s|
      invariant forall j :: 0 <= j < i ==> Less(s[j].key, g.key)
    {
      i := i + 1;
    }
    r := s[..i] + [g] + s[i..];
    forall j | i <= j < |s| ensures Less(g.key, s[j].key) {
      assert j == i || Less(s[i].key, s[j].key);
    }
  }

  method SortByKey(pending: seq<Gift>) returns (r: seq<Gift>)
    requires forall i, j :: 0 <= i < j < |pending| ==> pending[i].key != pending[j].key
    ensures InOrder(r)
    ensures forall x: Gift :: x in r <==> x in pending
  {
    r := [];
    for n := 0 to |pending|
      invariant InOrder(r)
      invariant forall x: Gift :: x in r <==> x in pending[..n]
    {
      forall i | 0 <= i < |r| ensures r[i].key != pending[n].key {
        assert r[i] in pending[..n];
      }
      r := InsertByKey(r, pending[n]);
      assert pending[..n + 1] == pending[..n] + [pending[n]];
    }
    assert pending[..|pending|] == pending;
  }

  class GiftStreaks {
    var open: Streaks

    constructor ()
      ensures open == AfterAll([])
    {
      open := map[];
    }

    method Observe(user: u64, gift: u64, repeatCount: u64, repeatEnd: bool, streakable: bool) returns (r: Option<Gift>)
      modifies this
      ensures var c := Call.Observe(Key(user, gift), repeatCount, repeatEnd, streakable);
              open == After(old(open), c) && r == Reported(old(open), c)
    {
      var key := Key(user, gift);
      var count := Max(repeatCount, 1);
      if !streakable {
        return Some(Gift(key, count));
      }
      if key !in open {
        open := open[key := 0];
      }
      open := open[key := Max(open[key], count)];
      if repeatEnd {
        var total := if key in open then open[key] else count;
        open := open - {key};
        return Some(Gift(key, total));
      }
      return None;
    }

    method OpenStreaks() returns (n: nat)
      ensures n == |open.Keys|
    {
      n := |open|;
    }

    /** The map is drained in whatever order it likes, then sorted. */
    method TakeOpen() returns (pending: seq<Gift>)
      modifies this
      ensures open == After(old(open), Call.TakeOpen)
      ensures Lists(pending, old(open))
    {
      pending := [];
      while open != map[]
        invariant forall i, j :: 0 <= i < j < |pending| ==> pending[i].key != pending[j].key
        invariant forall i :: 0 <= i < |pending| ==> pending[i].key !in open
        invariant forall k :: k in open ==> k in old(open) && open[k] == old(open)[k]
        invariant forall g: Gift :: g in pending <==>
                    g.key in old(open) && g.key !in open && old(open)[g.key] == g.count
        decreases |open|
      {
        var k :| k in open;
        pending := pending + [Gift(k, open[k])];
        open := open - {k};
      }
      pending := SortByKey(pending);
    }
  }

  /** `open_streaks` after any history counts the unfinished keys. */
  lemma OpenStreaksAre(h: seq<Call>, keys: set<Key>)
    requires forall k :: k in keys <==> Unfinished(h, k)
    ensures |AfterAll(h).Keys| == |keys|
  {
    forall k ensures k in AfterAll(h).Keys <==> k in keys { EveryHistory(h, k); }
    assert AfterAll(h).Keys == keys;
  }

  /** `take_open` after any history lists exactly the unfinished streaks with their largest counts. */
  lemma DrainIsUnfinished(h: seq<Call>, pending: seq<Gift>, g: Gift)
    requires Lists(pending, AfterAll(h))
    ensures g in pending <==> IsTotal(h, g.key, g.count)
    ensures AfterAll(h + [TakeOpen]) == map[]
  {
    assert (h + [TakeOpen])[..|h|] == h;
    EveryHistory(h, g.key);
    if IsTotal(h, g.key, g.count) {
      OneTotal(h, g.key, g.count, AfterAll(h)[g.key]);
    }
  }
}
