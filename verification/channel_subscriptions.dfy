/** Expiry of websocket channel subscriptions: the record of
    foodsaving/subscriptions/models.py and the `cleanup_channel_subscriptions`
    management command, which deletes websocket subscriptions that have not
    been seen for more than five minutes.

    The subscription table is a sequence of records; the deletion query is a
    filter over it, and `now` is a parameter. */
module ChannelSubscriptions {
  import opened Common

  /** Delivery mechanisms; websocket is the only one there is. */
  datatype SubscriptionTypus = Websocket

  /** One subscription row. `lastseenAt` is a nullable column. */
  datatype Subscription = Subscription(user: UserId, typus: SubscriptionTypus, destination: string,
                                       lastseenAt: Option<Time>)

  /** How long a websocket channel may stay silent before it is dropped. */
  const ExpiryWindow: int := 5 * Minute

  /** The deletion filter: a websocket row whose last-seen time is strictly
      before the cutoff. A null last-seen time never compares less than
      anything, so such a row is never selected. */
  predicate Stale(sub: Subscription, now: Time)
  {
    sub.typus == Websocket && sub.lastseenAt.Some? && sub.lastseenAt.value < now - ExpiryWindow
  }

  /** `Command.handle`: the table after the stale rows are deleted. */
  function Cleanup(subs: seq<Subscription>, now: Time): (kept: seq<Subscription>)
    ensures |kept| <= |subs|
    ensures forall i :: 0 <= i < |kept| ==> kept[i] in subs && !Stale(kept[i], now)
    ensures forall x :: x in subs ==> (x in kept <==> !Stale(x, now))
    decreases |subs|
  {
    if |subs| == 0 then []
    else
      var rest := Cleanup(subs[1..], now);
      if Stale(subs[0], now) then rest else [subs[0]] + rest
  }

  /** `a` is `b` with some elements left out, the rest in their order. */
  predicate IsSubsequence(a: seq<Subscription>, b: seq<Subscription>)
    decreases |b|
  {
    if |a| == 0 then true
    else if |b| == 0 then false
    else (a[0] == b[0] && IsSubsequence(a[1..], b[1..])) || IsSubsequence(a, b[1..])
  }

  /** Survivors are unchanged and keep their relative order. */
  lemma {:induction false} CleanupIsSubsequence(subs: seq<Subscription>, now: Time)
    ensures IsSubsequence(Cleanup(subs, now), subs)
    decreases |subs|
  {
    if |subs| > 0 {
      CleanupIsSubsequence(subs[1..], now);
      var rest := Cleanup(subs[1..], now);
      if !Stale(subs[0], now) {
        assert ([subs[0]] + rest)[1..] == rest;
      }
    }
  }

  /** Cleaning up two pieces of the table separately gives the same rows as
      cleaning the whole table: each row is judged on its own. */
  lemma {:induction false} CleanupDistributes(a: seq<Subscription>, b: seq<Subscription>, now: Time)
    ensures Cleanup(a + b, now) == Cleanup(a, now) + Cleanup(b, now)
    decreases |a|
  {
    if |a| == 0 {
      assert a + b == b;
    } else {
      assert (a + b)[1..] == a[1..] + b;
      CleanupDistributes(a[1..], b, now);
    }
  }

  /** A table without stale rows is left as it is. */
  lemma {:induction false} CleanupKeepsFresh(subs: seq<Subscription>, now: Time)
    requires forall i :: 0 <= i < |subs| ==> !Stale(subs[i], now)
    ensures Cleanup(subs, now) == subs
    decreases |subs|
  {
    if |subs| > 0 {
      CleanupKeepsFresh(subs[1..], now);
      assert [subs[0]] + subs[1..] == subs;
    }
  }

  /** Running the command twice at the same instant deletes nothing more. */
  lemma CleanupIdempotent(subs: seq<Subscription>, now: Time)
    ensures Cleanup(Cleanup(subs, now), now) == Cleanup(subs, now)
  {
    CleanupKeepsFresh(Cleanup(subs, now), now);
  }

  /** A row last seen three minutes ago survives; one last seen ten minutes
      ago is deleted; one last seen exactly five minutes ago survives, as does
      one never seen. */
  lemma CleanupScenarios(user: UserId, destination: string, now: Time)
    ensures var sub := Subscription(user, Websocket, destination, Some(now - 3 * Minute));
            Cleanup([sub], now) == [sub]
    ensures var sub := Subscription(user, Websocket, destination, Some(now - 10 * Minute));
            Cleanup([sub], now) == []
    ensures var sub := Subscription(user, Websocket, destination, Some(now - 5 * Minute));
            Cleanup([sub], now) == [sub]
    ensures var sub := Subscription(user, Websocket, destination, None);
            Cleanup([sub], now) == [sub]
  {
  }
}
