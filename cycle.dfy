/**
 * What one poll cycle promises, stated over the `Cycle` specification
 * that `Relay.CheckTweets` is proved to implement.
 */
module CycleProperties {
  import opened Options
  import opened Text
  import opened Relay

  /** The texts of a run of send attempts, whatever their outcomes. */
  function Texts(outbox: seq<Delivery>): seq<string>
  {
    seq(|outbox|, k requires 0 <= k < |outbox| => outbox[k].text)
  }

  /** Total number of posts the answers to `requests` carry. */
  function PostsReturned(requests: seq<Request>, source: Source): nat
  {
    if requests == [] then 0
    else |Batch(source(requests[0]))| + PostsReturned(requests[1..], source)
  }

  /** A cycle over `a + b` is a cycle over `a` followed by one over `b`. */
  lemma {:induction false} CycleAppend(a: seq<Id>, b: seq<Id>, st: State, source: Source, sink: Sink)
    ensures Cycle(a + b, st, source, sink) == Cycle(b, Cycle(a, st, source, sink), source, sink)
    decreases |a|
  {
    if a == [] {
      assert a + b == b;
    } else {
      assert (a + b)[1..] == a[1..] + b;
      CycleAppend(a[1..], b, AccountStep(st, a[0], source, sink), source, sink);
    }
  }

  /** Nothing recorded before the cycle is rewritten: the request log and
      the outbox only grow, and no cursor key is removed. */
  lemma {:induction false} CycleExtends(users: seq<Id>, st: State, source: Source, sink: Sink)
    ensures var st' := Cycle(users, st, source, sink);
      && |st.requests| <= |st'.requests| && st'.requests[..|st.requests|] == st.requests
      && |st.outbox| <= |st'.outbox| && st'.outbox[..|st.outbox|] == st.outbox
      && st.cursors.Keys <= st'.cursors.Keys
    decreases |users|
  {
    if users != [] {
      var st1 := AccountStep(st, users[0], source, sink);
      CycleExtends(users[1..], st1, source, sink);
      var st' := Cycle(users, st, source, sink);
      assert st'.requests[..|st.requests|] == st'.requests[..|st1.requests|][..|st.requests|];
      assert st'.outbox[..|st.outbox|] == st'.outbox[..|st1.outbox|][..|st.outbox|];
    }
  }

  /** Every account is fetched once per occurrence in `users`, in order,
      whatever any fetch returned: a rate limit or any other error never
      ends the cycle. The `since_id` of the k-th fetch is the cursor left
      by the first k accounts of the same cycle. */
  lemma {:induction false} CycleFetchesEveryAccount(users: seq<Id>, st: State, source: Source, sink: Sink)
    ensures var st' := Cycle(users, st, source, sink);
      && |st'.requests| == |st.requests| + |users|
      && forall k :: 0 <= k < |users| ==>
           st'.requests[|st.requests| + k]
           == Request(users[k], SinceId(Cycle(users[..k], st, source, sink).cursors, users[k]))
    decreases |users|
  {
    if users != [] {
      var st1 := AccountStep(st, users[0], source, sink);
      var st' := Cycle(users, st, source, sink);
      CycleFetchesEveryAccount(users[1..], st1, source, sink);
      CycleExtends(users[1..], st1, source, sink);
      forall k | 0 <= k < |users|
        ensures st'.requests[|st.requests| + k]
             == Request(users[k], SinceId(Cycle(users[..k], st, source, sink).cursors, users[k]))
      {
        if k == 0 {
          assert st'.requests[|st.requests|] == st'.requests[..|st1.requests|][|st.requests|];
        } else {
          assert users[..k][1..] == users[1..][..k - 1];
          assert users[k] == users[1..][k - 1];
        }
      }
    }
  }

  /** Cursors of accounts the cycle does not poll are left exactly as they
      were (present with the same value, or absent). */
  lemma {:induction false} CycleLeavesOtherCursors(users: seq<Id>, st: State, source: Source, sink: Sink, other: Id)
    requires other !in users
    ensures var st' := Cycle(users, st, source, sink);
      (other in st'.cursors <==> other in st.cursors)
      && (other in st.cursors ==> st'.cursors[other] == st.cursors[other])
    decreases |users|
  {
    if users != [] {
      CycleLeavesOtherCursors(users[1..], AccountStep(st, users[0], source, sink), source, sink, other);
    }
  }

  /** The cycle adds cursor keys only for polled accounts. */
  lemma {:induction false} CycleKeys(users: seq<Id>, st: State, source: Source, sink: Sink)
    ensures Cycle(users, st, source, sink).cursors.Keys <= st.cursors.Keys + set u | u in users
    decreases |users|
  {
    if users != [] {
      CycleKeys(users[1..], AccountStep(st, users[0], source, sink), source, sink);
    }
  }

  /** One send attempt per post returned: the cycle sends exactly as many
      messages as the successful, non-empty fetches of this cycle carry. */
  lemma {:induction false} CycleSendCount(users: seq<Id>, st: State, source: Source, sink: Sink)
    ensures var st' := Cycle(users, st, source, sink);
      && |st.requests| <= |st'.requests|
      && |st'.outbox| == |st.outbox| + PostsReturned(st'.requests[|st.requests|..], source)
    decreases |users|
  {
    if users != [] {
      var st1 := AccountStep(st, users[0], source, sink);
      var st' := Cycle(users, st, source, sink);
      CycleSendCount(users[1..], st1, source, sink);
      CycleExtends(users[1..], st1, source, sink);
      var issued := st'.requests[|st.requests|..];
      assert issued[0] == st1.requests[|st.requests|];
      assert issued[1..] == st'.requests[|st1.requests|..];
    }
  }

  /** Delivery outcomes change nothing but the outcome bits: whether sends
      succeed or fail, the cycle leaves the same cursors, issues the same
      fetches and attempts the same messages. In particular a cursor
      advances past a post whose message was lost. */
  lemma {:induction false} CycleIgnoresSendOutcome(users: seq<Id>, st1: State, st2: State, source: Source, sink1: Sink, sink2: Sink)
    requires st1.cursors == st2.cursors && st1.requests == st2.requests
    requires Texts(st1.outbox) == Texts(st2.outbox)
    ensures var r1 := Cycle(users, st1, source, sink1);
      var r2 := Cycle(users, st2, source, sink2);
      r1.cursors == r2.cursors && r1.requests == r2.requests && Texts(r1.outbox) == Texts(r2.outbox)
    decreases |users|
  {
    if users != [] {
      var a1 := AccountStep(st1, users[0], source, sink1);
      var a2 := AccountStep(st2, users[0], source, sink2);
      assert |st1.outbox| == |st2.outbox|;
      assert |a1.outbox| == |a2.outbox|;
      forall k | 0 <= k < |a1.outbox|
        ensures a1.outbox[k].text == a2.outbox[k].text
      {
        if k < |st1.outbox| {
          assert Texts(st1.outbox)[k] == Texts(st2.outbox)[k];
        }
      }
      assert Texts(a1.outbox) == Texts(a2.outbox);
      CycleIgnoresSendOutcome(users[1..], a1, a2, source, sink1, sink2);
    }
  }

  /** Every attempted message can be read back into its account and the
      text of the post it relays. */
  lemma DeliveriesCarryPosts(user: Id, posts: seq<Post>, base: nat, sink: Sink)
    ensures var sent := Deliveries(user, posts, base, sink);
      forall k :: 0 <= k < |sent| ==> ParseMessage(sent[k].text) == Some((user, posts[k].text))
  {
    var sent := Deliveries(user, posts, base, sink);
    forall k | 0 <= k < |sent|
      ensures ParseMessage(sent[k].text) == Some((user, posts[k].text))
    {
      MessageRoundTrip(user, posts[k].text);
    }
  }

  /** A non-empty page relays its posts oldest first, one message each,
      with the account id and the post text, and leaves the account's
      cursor at the id of the page's first (newest) post, whatever the send
      outcomes were. */
  lemma RelayedOldestFirst(st: State, user: Id, source: Source, sink: Sink, data: seq<Post>)
    requires source(Request(user, SinceId(st.cursors, user))) == Posts(data)
    requires data != []
    ensures var st' := AccountStep(st, user, source, sink);
      && user in st'.cursors && st'.cursors[user] == Some(data[0].id)
      && |st'.outbox| == |st.outbox| + |data|
      && st'.outbox[..|st.outbox|] == st.outbox
      && var sent := st'.outbox[|st.outbox|..];
         forall k :: 0 <= k < |sent| ==>
           ParseMessage(sent[k].text) == Some((user, data[|data| - 1 - k].text))
  {
    var request := Request(user, SinceId(st.cursors, user));
    assert Batch(source(request)) == data;
    var relayed := Deliveries(user, OldestFirst(data), |st.outbox|, sink);
    var st' := AccountStep(st, user, source, sink);
    assert st' == State(st.cursors[user := Some(data[0].id)], st.outbox + relayed, st.requests + [request]);
    assert st'.outbox[|st.outbox|..] == relayed;
    DeliveriesCarryPosts(user, OldestFirst(data), |st.outbox|, sink);
  }

  /** A newest-first page (strictly decreasing ids) goes out in strictly
      increasing id order: the k-th new message of the outbox carries the
      k-th post of the reversed page, and a later message always carries a
      post with a larger id. */
  lemma RelayOrderIncreasing(st: State, user: Id, source: Source, sink: Sink, data: seq<Post>)
    requires source(Request(user, SinceId(st.cursors, user))) == Posts(data)
    requires data != []
    requires forall i, j :: 0 <= i < j < |data| ==> data[i].id > data[j].id
    ensures var st' := AccountStep(st, user, source, sink);
      var relayed := OldestFirst(data);
      && |st.outbox| <= |st'.outbox|
      && var sent := st'.outbox[|st.outbox|..];
         && |sent| == |relayed|
         && (forall k :: 0 <= k < |sent| ==> ParseMessage(sent[k].text) == Some((user, relayed[k].text)))
         && (forall i, j :: 0 <= i < j < |sent| ==> relayed[i].id < relayed[j].id)
  {
    RelayedOldestFirst(st, user, source, sink, data);
  }

  /** An empty page, a rate limit or any other fetch error sends nothing
      and leaves every cursor as it was; only the fetch is recorded. */
  lemma NothingRelayedWithoutData(st: State, user: Id, source: Source, sink: Sink)
    requires Batch(source(Request(user, SinceId(st.cursors, user)))) == []
    ensures var st' := AccountStep(st, user, source, sink);
      st'.cursors == st.cursors && st'.outbox == st.outbox
      && st'.requests == st.requests + [Request(user, SinceId(st.cursors, user))]
  {
  }

  /** An account listed twice: the second fetch passes the cursor written
      by the first within the same cycle. */
  lemma DuplicateSeesFirstWrite(user: Id, st: State, source: Source, sink: Sink, data: seq<Post>)
    requires source(Request(user, SinceId(st.cursors, user))) == Posts(data)
    requires data != []
    ensures var st' := Cycle([user, user], st, source, sink);
      |st'.requests| == |st.requests| + 2 && st'.requests[|st.requests| + 1] == Request(user, Some(data[0].id))
  {
    var st1 := AccountStep(st, user, source, sink);
    assert Cycle([user, user], st, source, sink) == Cycle([user], st1, source, sink);
    assert Cycle([user], st1, source, sink) == AccountStep(st1, user, source, sink);
  }

  /** A rate limit on one account does not end the cycle: every later
      account is still fetched in the same pass. The rate-limit premise is
      not what makes this hold; it holds whatever the j-th fetch returned
      (`CycleFetchesEveryAccount`), and is stated for a rate limit because
      that is the outcome whose handler pauses the bot before moving on. */
  lemma RateLimitDoesNotEndCycle(users: seq<Id>, st: State, source: Source, sink: Sink, j: nat)
    requires j < |users|
    requires source(Request(users[j], SinceId(Cycle(users[..j], st, source, sink).cursors, users[j]))) == RateLimited
    ensures var st' := Cycle(users, st, source, sink);
      |st'.requests| == |st.requests| + |users|
      && forall k :: j < k < |users| ==> st'.requests[|st.requests| + k].user == users[k]
  {
    CycleFetchesEveryAccount(users, st, source, sink);
  }
}
