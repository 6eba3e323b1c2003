/**
 * The poll cycle against a remote API that honours `since_id`: every
 * account has a fixed timeline, newest first, and a fetch returns the
 * first `PageSize` posts of it whose ids are above the `since_id`. Under
 * that assumption on the oracle (the code itself never compares ids) a
 * second cycle relays nothing and cursors never move backwards.
 */
module HonestApi {
  import opened Options
  import opened Text
  import opened Relay
  import opened CycleProperties

  /** `max_results=5` in the poll cycle's fetch. */
  const PageSize: nat := 5

  type Timelines = Id -> seq<Post>

  /** Ids strictly decrease along the timeline. */
  predicate NewestFirst(timeline: seq<Post>)
  {
    forall i, j :: 0 <= i < j < |timeline| ==> timeline[i].id > timeline[j].id
  }

  predicate After(p: Post, since: Option<Id>)
  {
    since.None? || p.id > since.value
  }

  /** The posts of `timeline` newer than `since`, in timeline order. */
  function Newer(timeline: seq<Post>, since: Option<Id>): seq<Post>
  {
    if timeline == [] then []
    else if After(timeline[0], since) then [timeline[0]] + Newer(timeline[1..], since)
    else Newer(timeline[1..], since)
  }

  /** The answer of an honest API: at most `PageSize` of the newer posts,
      newest first. */
  function Page(timeline: seq<Post>, since: Option<Id>): seq<Post>
  {
    var newer := Newer(timeline, since);
    if |newer| <= PageSize then newer else newer[..PageSize]
  }

  function HonestSource(timelines: Timelines): Source
  {
    (request: Request) => Posts(Page(timelines(request.user), request.since))
  }

  /** The account's cursor is at or above every post of its timeline. */
  predicate CaughtUp(cursors: map<Id, Option<Id>>, timelines: Timelines, user: Id)
  {
    Newer(timelines(user), SinceId(cursors, user)) == []
  }

  /** Everything `Newer` keeps is in the timeline and after `since`. */
  lemma {:induction false} NewerSound(timeline: seq<Post>, since: Option<Id>)
    ensures forall p :: p in Newer(timeline, since) ==> p in timeline && After(p, since)
  {
    if timeline != [] {
      NewerSound(timeline[1..], since);
    }
  }

  /** On a newest-first timeline, whatever is newer than `since` starts with
      the timeline's newest post. */
  lemma {:induction false} NewerStartsAtNewest(timeline: seq<Post>, since: Option<Id>)
    requires NewestFirst(timeline)
    requires Newer(timeline, since) != []
    ensures Newer(timeline, since)[0] == timeline[0]
  {
    if !After(timeline[0], since) {
      NothingNewerBelow(timeline[1..], since.value);
      assert false;
    }
  }

  /** A timeline whose ids are all at or below `bound` has nothing newer
      than `bound`. */
  lemma {:induction false} NothingNewerBelow(timeline: seq<Post>, bound: Id)
    requires forall i :: 0 <= i < |timeline| ==> timeline[i].id <= bound
    ensures Newer(timeline, Some(bound)) == []
  {
    if timeline != [] {
      NothingNewerBelow(timeline[1..], bound);
    }
  }

  /** After one honest fetch an account is caught up. */
  lemma StepCatchesUp(st: State, user: Id, timelines: Timelines, sink: Sink)
    requires NewestFirst(timelines(user))
    ensures CaughtUp(AccountStep(st, user, HonestSource(timelines), sink).cursors, timelines, user)
  {
    var t := timelines(user);
    var since := SinceId(st.cursors, user);
    var newer := Newer(t, since);
    var page := Page(t, since);
    assert HonestSource(timelines)(Request(user, since)) == Posts(page);
    if page != [] {
      NewerStartsAtNewest(t, since);
      assert page[0] == t[0];
      NothingNewerBelow(t, t[0].id);
    }
  }

  /** Without a cursor every post of the timeline is newer. */
  lemma {:induction false} NewerThanNothing(timeline: seq<Post>)
    ensures Newer(timeline, None) == timeline
  {
    if timeline != [] {
      NewerThanNothing(timeline[1..]);
    }
  }

  /** A timeline of seven posts, ids 7 down to 1. */
  function SevenPosts(): seq<Post>
  {
    [Post(7, "g"), Post(6, "f"), Post(5, "e"), Post(4, "d"), Post(3, "c"), Post(2, "b"), Post(1, "a")]
  }

  /** More than `PageSize` new posts between two cycles: account 42 has no
      cursor and seven posts, ids 7 down to 1. Only the five newest go out
      (3 to 7, oldest first), the cursor jumps to 7, and the next cycle
      sends nothing, so posts 1 and 2 are never relayed. */
  lemma PageOverflowScenario(sink1: Sink, sink2: Sink)
    ensures var timelines := (u: Id) => if u == 42 then SevenPosts() else [];
      var once := Cycle([42], State(map[], [], []), HonestSource(timelines), sink1);
      var twice := Cycle([42], once, HonestSource(timelines), sink2);
      && Texts(once.outbox) == [Message(42, "c"), Message(42, "d"), Message(42, "e"), Message(42, "f"), Message(42, "g")]
      && once.cursors == map[42 := Some(7)]
      && twice.outbox == once.outbox && twice.cursors == once.cursors
  {
    var timelines := (u: Id) => if u == 42 then SevenPosts() else [];
    var t := SevenPosts();
    var source := HonestSource(timelines);
    var page := t[..5];
    NewerThanNothing(t);
    assert Page(t, None) == page;
    assert source(Request(42, None)) == Posts(page);
    var st0 := State(map[], [], []);
    var once := AccountStep(st0, 42, source, sink1);
    assert Cycle([42], st0, source, sink1) == once;
    assert OldestFirst(page) == [t[4], t[3], t[2], t[1], t[0]];
    assert once.cursors == map[42 := Some(7)];
    NothingNewerBelow(t, 7);
    assert timelines(42) == t;
    assert Page(t, Some(7)) == [];
    assert source(Request(42, Some(7))) == Posts([]);
    assert Cycle([42], once, source, sink2) == AccountStep(once, 42, source, sink2);
  }

  /** An honest fetch for a caught-up account changes nothing but the
      request log. */
  lemma CaughtUpStepIsQuiet(st: State, user: Id, timelines: Timelines, sink: Sink)
    requires CaughtUp(st.cursors, timelines, user)
    ensures var st' := AccountStep(st, user, HonestSource(timelines), sink);
      st'.cursors == st.cursors && st'.outbox == st.outbox
  {
  }

  /** After an honest cycle every polled account is caught up. */
  lemma {:induction false} CycleCatchesUp(users: seq<Id>, st: State, timelines: Timelines, sink: Sink)
    requires forall u :: u in users ==> NewestFirst(timelines(u))
    ensures forall u :: u in users ==>
      CaughtUp(Cycle(users, st, HonestSource(timelines), sink).cursors, timelines, u)
    decreases |users|
  {
    if users != [] {
      var source := HonestSource(timelines);
      var st1 := AccountStep(st, users[0], source, sink);
      CycleCatchesUp(users[1..], st1, timelines, sink);
      StepCatchesUp(st, users[0], timelines, sink);
      if users[0] !in users[1..] {
        CycleLeavesOtherCursors(users[1..], st1, source, sink, users[0]);
      }
    }
  }

  /** A cycle over caught-up accounts sends nothing and moves no cursor. */
  lemma {:induction false} CaughtUpCycleIsQuiet(users: seq<Id>, st: State, timelines: Timelines, sink: Sink)
    requires forall u :: u in users ==> CaughtUp(st.cursors, timelines, u)
    ensures var st' := Cycle(users, st, HonestSource(timelines), sink);
      st'.cursors == st.cursors && st'.outbox == st.outbox
    decreases |users|
  {
    if users != [] {
      CaughtUpStepIsQuiet(st, users[0], timelines, sink);
      var st1 := AccountStep(st, users[0], HonestSource(timelines), sink);
      CaughtUpCycleIsQuiet(users[1..], st1, timelines, sink);
    }
  }

  /** Running the poll cycle twice with no new posts in between: the second
      run sends nothing and leaves every cursor where the first put it. */
  lemma SecondCycleRelaysNothing(users: seq<Id>, st: State, timelines: Timelines, sink1: Sink, sink2: Sink)
    requires forall u :: u in users ==> NewestFirst(timelines(u))
    ensures var once := Cycle(users, st, HonestSource(timelines), sink1);
      var twice := Cycle(users, once, HonestSource(timelines), sink2);
      twice.outbox == once.outbox && twice.cursors == once.cursors
  {
    CycleCatchesUp(users, st, timelines, sink1);
    var once := Cycle(users, st, HonestSource(timelines), sink1);
    CaughtUpCycleIsQuiet(users, once, timelines, sink2);
  }

  /** Cursors only move forward against an honest API: a present cursor is
      replaced only by a larger id. */
  lemma {:induction false} CycleCursorsGrow(users: seq<Id>, st: State, timelines: Timelines, sink: Sink, user: Id)
    requires user in st.cursors && st.cursors[user].Some?
    ensures var st' := Cycle(users, st, HonestSource(timelines), sink);
      user in st'.cursors && st'.cursors[user].Some? && st'.cursors[user].value >= st.cursors[user].value
    decreases |users|
  {
    if users != [] {
      var source := HonestSource(timelines);
      var since := SinceId(st.cursors, users[0]);
      var page := Page(timelines(users[0]), since);
      assert source(Request(users[0], since)) == Posts(page);
      if users[0] == user && page != [] {
        NewerSound(timelines(user), since);
        assert page[0] in Newer(timelines(user), since);
      }
      CycleCursorsGrow(users[1..], AccountStep(st, users[0], source, sink), timelines, sink, user);
    }
  }

  /** First end-to-end scenario: account 42 without a cursor, the API
      returning posts 103, 102, 101 (newest first). Three messages go out
      in the order 101, 102, 103 and the cursor ends at 103. */
  lemma FreshAccountScenario(sink: Sink)
    ensures var timelines := (u: Id) => if u == 42 then [Post(103, "c"), Post(102, "b"), Post(101, "a")] else [];
      var st' := Cycle([42], State(map[], [], []), HonestSource(timelines), sink);
      Texts(st'.outbox) == [Message(42, "a"), Message(42, "b"), Message(42, "c")]
      && st'.cursors == map[42 := Some(103)]
  {
    var timelines := (u: Id) => if u == 42 then [Post(103, "c"), Post(102, "b"), Post(101, "a")] else [];
    var t := timelines(42);
    assert Newer(t[2..], None) == [t[2]];
    assert Newer(t[1..], None) == [t[1], t[2]];
    assert Newer(t, None) == t;
    assert Page(t, None) == t;
  }

  /** Second end-to-end scenario: account 42 with cursor 103 and nothing
      newer. No message goes out and the cursor stays at 103. */
  lemma NothingNewScenario(sink: Sink)
    ensures var timelines := (u: Id) => if u == 42 then [Post(103, "c"), Post(102, "b"), Post(101, "a")] else [];
      var st' := Cycle([42], State(map[42 := Some(103)], [], []), HonestSource(timelines), sink);
      st'.outbox == [] && st'.cursors == map[42 := Some(103)]
  {
    var timelines := (u: Id) => if u == 42 then [Post(103, "c"), Post(102, "b"), Post(101, "a")] else [];
    NothingNewerBelow(timelines(42), 103);
  }
}
