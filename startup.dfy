/**
 * What the bot does once before polling: resolve the comma-separated
 * handle list to account ids, then give every account its baseline cursor
 * (the id of its newest post, or none when it has no posts). Afterwards
 * it runs the poll cycle, here a bounded number of times.
 */
module Startup {
  import opened Options
  import opened Text
  import opened Relay

  /** What one `get_user(username=...)` call does: returns an account, returns
      no data (which the code turns into a "User not found" error), or
      raises. */
  datatype Lookup = Found(id: Id) | NotFound | LookupFailed

  type Directory = string -> Lookup

  /** The startup fetch, `get_users_tweets(id=user_id, max_results=5)`, per account. */
  type Latest = Id -> FetchOutcome

  /** Looking up the stripped handle returns account `id`. */
  predicate ResolvesTo(handle: string, directory: Directory, id: Id)
  {
    directory(Strip(handle)) == Found(id)
  }

  /** The ids one handle contributes: its account's id when the stripped
      handle resolves, nothing otherwise. */
  function ResolvedHandle(handle: string, directory: Directory): seq<Id>
  {
    match directory(Strip(handle))
    case Found(id) => [id]
    case _ => []
  }

  /** The resolved ids of `handles`, in order, duplicates kept. */
  function ResolvedIds(handles: seq<string>, directory: Directory): seq<Id>
    decreases |handles|
  {
    if handles == [] then []
    else ResolvedIds(handles[..|handles| - 1], directory) + ResolvedHandle(handles[|handles| - 1], directory)
  }

  /** How many handles resolve to `id`. */
  function ResolvingTo(handles: seq<string>, directory: Directory, id: Id): nat
  {
    if handles == [] then 0
    else (if ResolvesTo(handles[0], directory, id) then 1 else 0) + ResolvingTo(handles[1..], directory, id)
  }

  /** Resolution works handle by handle: the ids of a concatenation are the
      ids of the parts, in the same order. */
  lemma {:induction false} ResolvedIdsAppend(a: seq<string>, b: seq<string>, directory: Directory)
    ensures ResolvedIds(a + b, directory) == ResolvedIds(a, directory) + ResolvedIds(b, directory)
    decreases |b|
  {
    if b != [] {
      var b' := b[..|b| - 1];
      assert (a + b)[..|a + b| - 1] == a + b';
      ResolvedIdsAppend(a, b', directory);
    } else {
      assert a + b == a;
    }
  }

  /** An id is monitored exactly when some stripped handle resolves to it. */
  lemma {:induction false} ResolvedIdsMembership(handles: seq<string>, directory: Directory, id: Id)
    ensures id in ResolvedIds(handles, directory) <==>
            exists i :: 0 <= i < |handles| && ResolvesTo(handles[i], directory, id)
    decreases |handles|
  {
    if handles != [] {
      var init := handles[..|handles| - 1];
      var last := handles[|handles| - 1];
      ResolvedIdsMembership(init, directory, id);
      assert id in ResolvedHandle(last, directory) <==> ResolvesTo(last, directory, id);
      if exists i :: 0 <= i < |handles| && ResolvesTo(handles[i], directory, id) {
        var i :| 0 <= i < |handles| && ResolvesTo(handles[i], directory, id);
        if i < |init| {
          assert init[i] == handles[i];
        }
      }
      if exists i :: 0 <= i < |init| && ResolvesTo(init[i], directory, id) {
        var i :| 0 <= i < |init| && ResolvesTo(init[i], directory, id);
        assert handles[i] == init[i];
      }
    }
  }

  /** No de-duplication: an id is monitored once per handle resolving to it,
      so an account named twice is polled twice per cycle. */
  lemma {:induction false} ResolvedIdsMultiplicity(handles: seq<string>, directory: Directory, id: Id)
    ensures multiset(ResolvedIds(handles, directory))[id] == ResolvingTo(handles, directory, id)
    decreases |handles|
  {
    if handles != [] {
      var rest := handles[1..];
      assert handles == [handles[0]] + rest;
      ResolvedIdsAppend([handles[0]], rest, directory);
      ResolvedIdsMultiplicity(rest, directory, id);
      assert [handles[0]][..0] == [];
      assert ResolvedIds([handles[0]], directory) == ResolvedHandle(handles[0], directory);
    }
  }

  /** The account-resolution loop of the startup routine. */
  method ResolveUserIds(usersToMonitor: string, directory: Directory) returns (userIds: seq<Id>)
    ensures userIds == ResolvedIds(Split(usersToMonitor, ','), directory)
  {
    var usernames := Split(usersToMonitor, ',');
    userIds := [];
    var i := 0;
    while i < |usernames|
      invariant 0 <= i <= |usernames|
      invariant userIds == ResolvedIds(usernames[..i], directory)
    {
      assert usernames[..i + 1][..i] == usernames[..i];
      var user := directory(Strip(usernames[i]));
      if user.Found? {
        userIds := userIds + [user.id];
      }
      // A lookup that returns no data or raises is logged and skipped.
      i := i + 1;
    }
    assert usernames[..i] == usernames;
  }

  /** The baseline cursor a startup page gives: its first (newest) id, or
      none for an empty page. */
  function FirstId(data: seq<Post>): Option<Id>
  {
    if data == [] then None else Some(data[0].id)
  }

  /** The initial cursor map: a key for every account whose startup fetch
      did not raise. */
  function InitialCursors(userIds: seq<Id>, latest: Latest): map<Id, Option<Id>>
  {
    map u | u in userIds && latest(u).Posts? :: FirstId(latest(u).data)
  }

  /** The cursor-initialisation loop of the startup routine. */
  method InitLastTweetIds(userIds: seq<Id>, latest: Latest) returns (lastTweetIds: map<Id, Option<Id>>)
    ensures forall u :: u in lastTweetIds <==> u in userIds && latest(u).Posts?
    ensures forall u :: u in lastTweetIds ==>
      (lastTweetIds[u].None? <==> latest(u).data == []) &&
      (lastTweetIds[u].Some? ==> lastTweetIds[u].value == latest(u).data[0].id)
  {
    lastTweetIds := map[];
    var i := 0;
    while i < |userIds|
      invariant 0 <= i <= |userIds|
      invariant forall u :: u in lastTweetIds <==> u in userIds[..i] && latest(u).Posts?
      invariant forall u :: u in lastTweetIds ==> lastTweetIds[u] == FirstId(latest(u).data)
    {
      var user := userIds[i];
      var response := latest(user);
      match response {
        case Posts(data) =>
          if data != [] {
            lastTweetIds := lastTweetIds[user := Some(data[0].id)];
          } else {
            lastTweetIds := lastTweetIds[user := None];
          }
        case _ =>
          // The exception is logged and no key is written.
      }
      assert userIds[..i + 1] == userIds[..i] + [user];
      i := i + 1;
    }
    assert userIds[..i] == userIds;
  }

  /** The whole program with the endless loop cut to one cycle per source
      snapshot: resolve, initialise, then poll. */
  method RunBot(usersToMonitor: string, directory: Directory, latest: Latest,
                snapshots: seq<Source>, sink: Sink) returns (relay: Relay)
    ensures fresh(relay)
    ensures var users := ResolvedIds(Split(usersToMonitor, ','), directory);
      relay.Snapshot() == Cycles(users, State(InitialCursors(users, latest), [], []), snapshots, sink)
  {
    var userIds := ResolveUserIds(usersToMonitor, directory);
    var lastTweetIds := InitLastTweetIds(userIds, latest);
    assert lastTweetIds == InitialCursors(userIds, latest);
    relay := new Relay(lastTweetIds);
    relay.Monitor(userIds, snapshots, sink);
  }
}
