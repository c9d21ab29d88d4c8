/** Word-of-the-day subscriptions kept in a list, in insertion order. */
module Subscriptions {
  import Seqs

  /** One subscription; `createdAt` is the ISO time stamp the caller supplies. */
  datatype Subscription = Subscription(
    userId: string,
    difficultyId: string,
    difficultyName: string,
    count: int,
    time: string,
    createdAt: string)

  function OfUser(u: string): Subscription -> bool {
    (s: Subscription) => s.userId == u
  }

  function NotOfUser(u: string): Subscription -> bool {
    (s: Subscription) => s.userId != u
  }

  function AtTime(t: string): Subscription -> bool {
    (s: Subscription) => s.time == t
  }

  class SubscriptionManager {
    var subscriptions: seq<Subscription>

    constructor ()
      ensures subscriptions == []
    {
      subscriptions := [];
    }

    /** `add_subscription`: append at the end, duplicates included. */
    method AddSubscription(s: Subscription)
      modifies this
      ensures subscriptions == old(subscriptions) + [s]
    {
      subscriptions := subscriptions + [s];
    }

    /** `get_user_subscriptions(u)`: `u`'s subscriptions, in insertion order. */
    function GetUserSubscriptions(u: string): (r: seq<Subscription>)
      reads this
      ensures forall s :: s in r <==> s in subscriptions && s.userId == u
    {
      UserSubscriptionsMembership(subscriptions, u);
      Seqs.Filter(subscriptions, OfUser(u))
    }

    /**
     * `remove_user_subscriptions(u)`: drop all of `u`'s subscriptions; every
     * other user's list is unchanged, order included.
     */
    method RemoveUserSubscriptions(u: string)
      modifies this
      ensures subscriptions == Seqs.Filter(old(subscriptions), NotOfUser(u))
      ensures GetUserSubscriptions(u) == []
      ensures forall v :: v != u ==> GetUserSubscriptions(v) == old(GetUserSubscriptions(v))
      ensures |subscriptions| + |old(GetUserSubscriptions(u))| == |old(subscriptions)|
    {
      ghost var was := subscriptions;
      subscriptions := Seqs.Filter(subscriptions, NotOfUser(u));
      RemoveUserKeepsOthers(was, u);
    }

    /** `get_all_subscriptions`: the whole list, in insertion order. */
    function GetAllSubscriptions(): (r: seq<Subscription>)
      reads this
      ensures r == subscriptions
    {
      subscriptions
    }

    /** `get_subscriptions_by_time(t)`: subscriptions at exactly `t`, in insertion order. */
    function GetSubscriptionsByTime(t: string): (r: seq<Subscription>)
      reads this
      ensures forall s :: s in r <==> s in subscriptions && s.time == t
    {
      AtTimeMembership(subscriptions, t);
      Seqs.Filter(subscriptions, AtTime(t))
    }
  }

  lemma UserSubscriptionsMembership(subs: seq<Subscription>, u: string)
    ensures forall s :: s in Seqs.Filter(subs, OfUser(u)) <==> s in subs && s.userId == u
  {
    forall s | s in subs && s.userId == u ensures s in Seqs.Filter(subs, OfUser(u)) {
      var k :| 0 <= k < |subs| && subs[k] == s;
      assert OfUser(u)(subs[k]);
    }
  }

  lemma AtTimeMembership(subs: seq<Subscription>, t: string)
    ensures forall s :: s in Seqs.Filter(subs, AtTime(t)) <==> s in subs && s.time == t
  {
    forall s | s in subs && s.time == t ensures s in Seqs.Filter(subs, AtTime(t)) {
      var k :| 0 <= k < |subs| && subs[k] == s;
      assert AtTime(t)(subs[k]);
    }
  }

  /**
   * Removing `u` leaves no subscription of `u`, leaves every other user's
   * subscriptions exactly as they were, and removes exactly `u`'s count.
   */
  lemma RemoveUserKeepsOthers(subs: seq<Subscription>, u: string)
    ensures Seqs.Filter(Seqs.Filter(subs, NotOfUser(u)), OfUser(u)) == []
    ensures forall v :: v != u ==>
      Seqs.Filter(Seqs.Filter(subs, NotOfUser(u)), OfUser(v)) == Seqs.Filter(subs, OfUser(v))
    ensures |Seqs.Filter(subs, NotOfUser(u))| + |Seqs.Filter(subs, OfUser(u))| == |subs|
  {
    var kept := Seqs.Filter(subs, NotOfUser(u));
    Seqs.FilterNone(kept, OfUser(u));
    forall v | v != u
      ensures Seqs.Filter(kept, OfUser(v)) == Seqs.Filter(subs, OfUser(v))
    {
      Seqs.FilterOfFilter(subs, NotOfUser(u), OfUser(v));
    }
    Seqs.FilterPartition(subs, OfUser(u), NotOfUser(u));
  }

  /** Removing a user's subscriptions twice is the same as removing them once. */
  lemma {:induction false} RemoveUserIdempotent(subs: seq<Subscription>, u: string)
    ensures Seqs.Filter(Seqs.Filter(subs, NotOfUser(u)), NotOfUser(u)) == Seqs.Filter(subs, NotOfUser(u))
  {
    Seqs.FilterOfFilter(subs, NotOfUser(u), NotOfUser(u));
  }

  const SampleA := Subscription("user_123", "diff_001", "中等", 3, "08:00", "2025-06-11T15:30:00.000000")
  const SampleB := Subscription("user_123", "diff_002", "困難", 2, "09:00", "2025-06-11T15:35:00.000000")
  const SampleC := Subscription("user_456", "diff_001", "中等", 1, "08:00", "2025-06-11T15:40:00.000000")

  lemma SampleFilter(p: Subscription -> bool)
    ensures Seqs.Filter([SampleA, SampleB, SampleC], p)
      == (if p(SampleA) then [SampleA] else []) + (if p(SampleB) then [SampleB] else [])
         + (if p(SampleC) then [SampleC] else [])
  {
    Seqs.FilterCons(SampleC, [], p);
    Seqs.FilterCons(SampleB, [SampleC], p);
    Seqs.FilterCons(SampleA, [SampleB, SampleC], p);
    assert [SampleA, SampleB, SampleC] == [SampleA] + [SampleB, SampleC];
    assert [SampleB, SampleC] == [SampleB] + [SampleC];
    assert [SampleC] == [SampleC] + [];
  }

  lemma SampleFilters()
    ensures Seqs.Filter([SampleA, SampleB, SampleC], OfUser("user_123")) == [SampleA, SampleB]
    ensures Seqs.Filter([SampleA, SampleB, SampleC], AtTime("08:00")) == [SampleA, SampleC]
    ensures Seqs.Filter([SampleA, SampleB, SampleC], NotOfUser("user_123")) == [SampleC]
  {
    assert "user_456"[5] != "user_123"[5];
    assert "09:00"[1] != "08:00"[1];
    SampleFilter(OfUser("user_123"));
    SampleFilter(AtTime("08:00"));
    SampleFilter(NotOfUser("user_123"));
  }

  /**
   * The sample data at the bottom of subscription.py: user_123 has two
   * subscriptions, the 08:00 slot has two, and removing user_123 leaves
   * only user_456's subscription.
   */
  method SampleData() returns (userCount: nat, slotCount: nat, remaining: seq<Subscription>)
    ensures userCount == 2 && slotCount == 2
    ensures remaining == [Subscription("user_456", "diff_001", "中等", 1, "08:00", "2025-06-11T15:40:00.000000")]
  {
    SampleFilters();
    var manager := new SubscriptionManager();
    manager.AddSubscription(SampleA);
    manager.AddSubscription(SampleB);
    manager.AddSubscription(SampleC);
    assert manager.subscriptions == [SampleA, SampleB, SampleC];
    var mine := manager.GetUserSubscriptions("user_123");
    var slot := manager.GetSubscriptionsByTime("08:00");
    manager.RemoveUserSubscriptions("user_123");
    userCount, slotCount, remaining := |mine|, |slot|, manager.GetAllSubscriptions();
  }
}
