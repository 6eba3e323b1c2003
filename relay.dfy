/**
 * The poll cycle of the relay bot: for every monitored account, in order,
 * fetch the posts newer than the account's cursor, send one chat message
 * per post oldest-first, and move the cursor to each post right after its
 * send. The two remote clients are oracles given as data:
 *   - a `Source` answers a fetch request (account, since-id) with the page
 *     of posts the API returns (newest first), a rate-limit error or any
 *     other failure;
 *   - a `Sink` says whether the n-th send attempt of the process succeeds.
 */
module Relay {
  import opened Options
  import opened Text

  /** Account ids and post ids are non-negative integers. */
  type Id = nat

  datatype Post = Post(id: Id, text: string)

  /** What one `get_users_tweets` call does: returns a page (possibly empty,
      which the API reports as no data), raises `TooManyRequests`, or raises
      anything else. */
  datatype FetchOutcome = Posts(data: seq<Post>) | RateLimited | Failed

  /** The arguments of one fetch the cycle issues: the account and the
      `since_id` it passes. */
  datatype Request = Request(user: Id, since: Option<Id>)

  /** One call of the send routine: the message and whether the chat
      platform accepted it. */
  datatype Delivery = Delivery(text: string, ok: bool)

  type Source = Request -> FetchOutcome
  type Sink = nat -> bool

  /** The observable state of the relay: the cursor map, every send
      attempt in order, and every fetch request in order. */
  datatype State = State(cursors: map<Id, Option<Id>>, outbox: seq<Delivery>, requests: seq<Request>)

  /** `last_tweet_ids.get(user_id)`: the stored cursor, or none when the key
      is missing. */
  function SinceId(cursors: map<Id, Option<Id>>, user: Id): Option<Id>
  {
    if user in cursors then cursors[user] else None
  }

  /** `reversed(posts)`: the page newest-first becomes oldest-first. */
  function OldestFirst(posts: seq<Post>): seq<Post>
  {
    seq(|posts|, k requires 0 <= k < |posts| => posts[|posts| - 1 - k])
  }

  /** Reversal loses and invents nothing: it is its own inverse and keeps
      every post with its multiplicity. */
  lemma {:induction false} OldestFirstReverses(posts: seq<Post>)
    ensures OldestFirst(OldestFirst(posts)) == posts
    ensures multiset(OldestFirst(posts)) == multiset(posts)
    decreases |posts|
  {
    if posts != [] {
      var init := posts[..|posts| - 1];
      OldestFirstReverses(init);
      assert OldestFirst(posts) == [posts[|posts| - 1]] + OldestFirst(init);
      assert posts == init + [posts[|posts| - 1]];
    }
  }

  /** The send attempts made for `posts` (already in sending order) of
      account `user`, the first being the process's attempt number `base`. */
  function Deliveries(user: Id, posts: seq<Post>, base: nat, sink: Sink): seq<Delivery>
  {
    seq(|posts|, k requires 0 <= k < |posts| => Delivery(Message(user, posts[k].text), sink(base + k)))
  }

  lemma DeliveriesSnoc(user: Id, posts: seq<Post>, p: Post, base: nat, sink: Sink)
    ensures Deliveries(user, posts + [p], base, sink)
         == Deliveries(user, posts, base, sink) + [Delivery(Message(user, p.text), sink(base + |posts|))]
  {
  }

  /** The posts a fetch outcome relays: the page, or nothing on an error. */
  function Batch(outcome: FetchOutcome): seq<Post>
  {
    if outcome.Posts? then outcome.data else []
  }

  /** What one pass of the loop body does for `user`: fetch since its
      cursor; on a non-empty page, relay it oldest-first, leaving the
      cursor at the newest post (the first of the page); on an empty page
      or on either kind of error, leave the cursor and the outbox alone. */
  function AccountStep(st: State, user: Id, source: Source, sink: Sink): State
  {
    var request := Request(user, SinceId(st.cursors, user));
    var page := Batch(source(request));
    if page == [] then
      State(st.cursors, st.outbox, st.requests + [request])
    else
      State(st.cursors[user := Some(page[0].id)],
            st.outbox + Deliveries(user, OldestFirst(page), |st.outbox|, sink),
            st.requests + [request])
  }

  /** One call of the poll cycle over `users`, in order; no outcome stops it. */
  function Cycle(users: seq<Id>, st: State, source: Source, sink: Sink): State
    decreases |users|
  {
    if users == [] then st
    else Cycle(users[1..], AccountStep(st, users[0], source, sink), source, sink)
  }

  /** A bounded run of the scheduler: one cycle per snapshot of the source. */
  function Cycles(users: seq<Id>, st: State, snapshots: seq<Source>, sink: Sink): State
    decreases |snapshots|
  {
    if snapshots == [] then st
    else Cycles(users, Cycle(users, st, snapshots[0], sink), snapshots[1..], sink)
  }

  /** The cursor store and the record of what the bot has done. */
  class Relay {
    var lastTweetIds: map<Id, Option<Id>>
    var outbox: seq<Delivery>
    var requests: seq<Request>

    function Snapshot(): State
      reads this
    {
      State(lastTweetIds, outbox, requests)
    }

    constructor (cursors: map<Id, Option<Id>>)
      ensures Snapshot() == State(cursors, [], [])
    {
      lastTweetIds := cursors;
      outbox := [];
      requests := [];
    }

    /** Sends one message. A `TelegramError` is swallowed: the call returns
        normally either way and only the outbox records the outcome. */
    method SendTelegramMessage(message: string, sink: Sink)
      modifies this
      ensures outbox == old(outbox) + [Delivery(message, sink(|old(outbox)|))]
      ensures lastTweetIds == old(lastTweetIds) && requests == old(requests)
    {
      var ok := sink(|outbox|);
      outbox := outbox + [Delivery(message, ok)];
    }

    /** The body of the loop over accounts, for one account. The result is
        the `new_tweets_found` flag that selects the log line. */
    method PollAccount(user: Id, source: Source, sink: Sink) returns (newTweetsFound: bool)
      modifies this
      ensures Snapshot() == AccountStep(old(Snapshot()), user, source, sink)
      ensures newTweetsFound <==> Batch(source(Request(user, SinceId(old(lastTweetIds), user)))) != []
    {
      ghost var st0 := Snapshot();
      var request := Request(user, SinceId(lastTweetIds, user));
      requests := requests + [request];
      var response := source(request);
      newTweetsFound := false;
      if response.Posts? && response.data != [] {
        var data := response.data;
        var n := |data|;
        var relayed := OldestFirst(data);
        var i := 0;
        while i < n
          invariant 0 <= i <= n
          invariant newTweetsFound <==> i > 0
          invariant requests == old(requests) + [request]
          invariant outbox == old(outbox) + Deliveries(user, relayed[..i], |old(outbox)|, sink)
          invariant lastTweetIds ==
            if i == 0 then old(lastTweetIds) else old(lastTweetIds)[user := Some(data[n - i].id)]
        {
          var tweet := relayed[i];
          var message := Message(user, tweet.text);
          SendTelegramMessage(message, sink);
          lastTweetIds := lastTweetIds[user := Some(tweet.id)];
          newTweetsFound := true;
          assert relayed[..i + 1] == relayed[..i] + [tweet];
          DeliveriesSnoc(user, relayed[..i], tweet, |old(outbox)|, sink);
          i := i + 1;
        }
        assert relayed[..n] == relayed;
        assert Batch(response) == data;
        assert Snapshot() == State(st0.cursors[user := Some(data[0].id)],
                                   st0.outbox + Deliveries(user, OldestFirst(data), |st0.outbox|, sink),
                                   st0.requests + [request]);
      } else {
        // An empty page only logs. On a rate limit the bot sleeps 900
        // seconds and then carries on with the next account; on any other
        // error it only logs.
        assert Batch(response) == [];
        assert Snapshot() == State(st0.cursors, st0.outbox, st0.requests + [request]);
      }
    }

    /** `check_tweets`: polls every account in order and returns the same
        cursor store it was given. */
    method CheckTweets(users: seq<Id>, source: Source, sink: Sink) returns (store: Relay)
      modifies this
      ensures store == this
      ensures Snapshot() == Cycle(users, old(Snapshot()), source, sink)
    {
      var i := 0;
      while i < |users|
        invariant 0 <= i <= |users|
        invariant Cycle(users[i..], Snapshot(), source, sink) == Cycle(users, old(Snapshot()), source, sink)
      {
        assert users[i..][1..] == users[i + 1..];
        var _ := PollAccount(users[i], source, sink);
        i := i + 1;
      }
      store := this;
    }

    /** The scheduler's endless loop, cut to one cycle per source snapshot. */
    method Monitor(users: seq<Id>, snapshots: seq<Source>, sink: Sink)
      modifies this
      ensures Snapshot() == Cycles(users, old(Snapshot()), snapshots, sink)
    {
      var i := 0;
      while i < |snapshots|
        invariant 0 <= i <= |snapshots|
        invariant Cycles(users, Snapshot(), snapshots[i..], sink) == Cycles(users, old(Snapshot()), snapshots, sink)
      {
        assert snapshots[i..][1..] == snapshots[i + 1..];
        var _ := CheckTweets(users, snapshots[i], sink);
        i := i + 1;
      }
    }
  }
}
