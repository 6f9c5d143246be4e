/**
 * The bot's shared state and its handlers: `process_message` (main.py:97-104),
 * `check_and_publish_thread` (main.py:107-132) and `on_message` (main.py:139-151).
 * Each handler is one method call and runs without interleaving (for `on_message` this is
 * stronger than the source, where only the enqueue holds `thread_lock`).
 * The chat platform at the moment of a call is a `World` value; what the bot does to it
 * (reactions, thread messages) is appended to an effect log.
 */
module Bot {
  import opened Timestamps
  import opened Schedules
  import opened Ordering

  /** `subscription_roles`: the roles that may be mentioned when a thread is published. */
  const SubscriptionRoles: map<string, nat> :=
    map["Basic" := 1280744389186162688, "Standard" := 1285833817013223465]

  /** What the chat platform answers at one moment. */
  datatype World = World(
    channels: set<nat>,          // the ids `client.get_channel` resolves
    guildRoles: seq<nat>,        // `guild.roles`, in the guild's order
    viewable: set<(nat, nat)>,   // (thread, role): `thread.permissions_for(role).view_channel`
    sendSucceeds: bool)          // whether `thread.send` returns instead of raising

  datatype Marker = Cross | ThumbsUp

  datatype Effect =
    | React(messageId: nat, marker: Marker)      // `message.add_reaction`
    | Notify(threadId: nat, mentions: seq<nat>)  // `thread.send`, with the roles it mentions

  datatype TickOutcome = Empty | Raised | NotDue | Fired(threadId: nat)

  datatype Reply = Ignored | Rejected | Accepted

  /**
   * The roles mentioned when `thread` is published (main.py:128): the guild's roles, in
   * order, that can view the thread and are among the subscription roles.
   */
  function Mentions(roles: seq<nat>, thread: nat, viewable: set<(nat, nat)>): (m: seq<nat>)
    ensures |m| <= |roles|
    ensures forall r :: r in m <==> r in roles && (thread, r) in viewable && r in SubscriptionRoles.Values
  {
    if roles == [] then []
    else
      var r := roles[0];
      (if (thread, r) in viewable && r in SubscriptionRoles.Values then [r] else [])
        + Mentions(roles[1..], thread, viewable)
  }

  /**
   * The listing loop of main.py:115-116 reads `get_thread().name` of every entry in turn.
   * Only its failure is modelled: it raises at the first entry whose thread no longer
   * resolves.
   */
  method ListQueue(q: seq<Entry>, channels: set<nat>) returns (raised: bool)
    ensures raised <==> exists i :: 0 <= i < |q| && ThreadId(q[i]) !in channels
  {
    for i := 0 to |q|
      invariant forall j :: 0 <= j < i ==> ThreadId(q[j]) in channels
    {
      if ThreadId(q[i]) !in channels {
        return true;
      }
    }
    return false;
  }

  class ScheduleBot {
    /** `SCHEDULE_CHANNEL_ID`: requests are read only from this channel. */
    const scheduleChannelId: nat
    /** `schedule_queue`. */
    var queue: seq<Entry>
    /** Everything the bot has done on the platform, oldest first. */
    var effects: seq<Effect>

    /** At every point outside a handler the queue is in publish-time order. */
    ghost predicate Valid()
      reads this
    {
      Sorted(queue)
    }

    constructor (scheduleChannelId: nat)
      ensures Valid()
      ensures this.scheduleChannelId == scheduleChannelId && queue == [] && effects == []
    {
      this.scheduleChannelId := scheduleChannelId;
      queue := [];
      effects := [];
    }

    /**
     * `process_message`: append, then sort. The new queue is the old one with `s` spliced in
     * behind every entry not later than it, so it is sorted, holds exactly the old entries
     * plus `s`, and keeps entries with equal times in arrival order.
     */
    method ProcessMessage(s: Entry)
      requires Valid()
      modifies this
      ensures Valid()
      ensures queue == StableSort(old(queue) + [s])
      ensures queue == old(queue)[..InsertionPoint(old(queue), s)] + [s] + old(queue)[InsertionPoint(old(queue), s)..]
      ensures multiset(queue) == multiset(old(queue)) + multiset{s}
      ensures forall k :: AtTime(queue, k) == AtTime(old(queue), k) + AtTime([s], k)
      ensures effects == old(effects)
    {
      ghost var before := queue;
      queue := queue + [s];
      queue := StableSort(queue);
      StableSortCorrect(before + [s]);
      AppendThenSort(before, s);
      InsertSplices(before, s);
      forall k ensures AtTime(queue, k) == AtTime(before, k) + AtTime([s], k) {
        AtTimeAppend(before, [s], k);
      }
    }

    /**
     * One tick of `check_and_publish_thread` at clock reading `now`. Nothing changes when the
     * queue is empty, when a queued thread no longer resolves (the listing raises), when the
     * head is not yet due, or when `thread.send` raises. Otherwise one message goes to the
     * head's thread and exactly the head is removed.
     */
    method CheckAndPublishThread(now: Timestamp, world: World) returns (outcome: TickOutcome)
      requires Valid()
      modifies this
      ensures Valid()
      ensures outcome == Empty <==> old(queue) == []
      ensures outcome == NotDue <==>
        && old(queue) != []
        && (forall i :: 0 <= i < |old(queue)| ==> ThreadId(old(queue)[i]) in world.channels)
        && BeforeScheduleTime(old(queue)[0], now)
      ensures outcome.Fired? <==>
        && old(queue) != []
        && (forall i :: 0 <= i < |old(queue)| ==> ThreadId(old(queue)[i]) in world.channels)
        && AfterScheduleTime(old(queue)[0], now)
        && world.sendSucceeds
      ensures !outcome.Fired? ==> queue == old(queue) && effects == old(effects)
      ensures outcome.Fired? ==>
        var head := old(queue)[0];
        && outcome.threadId == ThreadId(head)
        && queue == old(queue)[1..]
        && multiset(queue) == multiset(old(queue)) - multiset{head}
        && effects == old(effects) + [Notify(ThreadId(head), Mentions(world.guildRoles, ThreadId(head), world.viewable))]
    {
      if queue == [] {
        return Empty;
      }
      var raised := ListQueue(queue, world.channels);
      if raised {
        return Raised;
      }
      var head := queue[0];
      DueTestsComplement(head, now);
      if BeforeScheduleTime(head, now) {
        return NotDue;
      }
      var thread := ThreadId(head);
      var mentions := Mentions(world.guildRoles, thread, world.viewable);
      if !world.sendSucceeds {
        return Raised;
      }
      effects := effects + [Notify(thread, mentions)];
      assert queue == [head] + queue[1..];
      queue := queue[1..];
      return Fired(thread);
    }

    /**
     * `on_message`: ignore other channels; build the request; react ❌ and stop unless it
     * is admitted; otherwise react 👍 and then enqueue it.
     */
    method OnMessage(msg: Message, world: World) returns (reply: Reply)
      requires Valid()
      modifies this
      ensures Valid()
      ensures msg.channelId != scheduleChannelId ==>
        reply == Ignored && queue == old(queue) && effects == old(effects)
      ensures msg.channelId == scheduleChannelId && !Admits(NewSchedule(msg, world.channels), world.channels) ==>
        && reply == Rejected
        && queue == old(queue)
        && effects == old(effects) + [React(msg.id, Cross)]
      ensures msg.channelId == scheduleChannelId && Admits(NewSchedule(msg, world.channels), world.channels) ==>
        var s: Entry := NewSchedule(msg, world.channels);
        && reply == Accepted
        && effects == old(effects) + [React(msg.id, ThumbsUp)]
        && queue == StableSort(old(queue) + [s])
        && multiset(queue) == multiset(old(queue)) + multiset{s}
    {
      if msg.channelId != scheduleChannelId {
        return Ignored;
      }
      var s := NewSchedule(msg, world.channels);
      // The last test is the calendar check the source leaves out (see PassesChecks).
      if !s.IsValid() || s.threadId.value !in world.channels || s.publishTime.None? {
        effects := effects + [React(msg.id, Cross)];
        return Rejected;
      }
      effects := effects + [React(msg.id, ThumbsUp)];
      ProcessMessage(s);
      return Accepted;
    }
  }

  /** Two requests for 09:00 and 08:30, submitted in that order, leave the queue as [08:30, 09:00]. */
  method ScenarioTwoRequests(early: Entry, late: Entry)
    requires PublishTime(late) == Timestamp(2025, 1, 1, 9, 0)
    requires PublishTime(early) == Timestamp(2025, 1, 1, 8, 30)
  {
    var bot := new ScheduleBot(0);
    bot.ProcessMessage(late);
    assert bot.queue == [late];
    assert ScheduleLess(early, late) && InsertionPoint([late], early) == 0;
    bot.ProcessMessage(early);
    assert bot.queue == [early, late];
  }

  /** With the clock past 08:30 one tick fires the 08:30 entry only; the next leaves 09:00 waiting. */
  method ScenarioTicks(bot: ScheduleBot, early: Entry, late: Entry, world: World)
    requires bot.Valid() && bot.queue == [early, late]
    requires PublishTime(late) == Timestamp(2025, 1, 1, 9, 0)
    requires PublishTime(early) == Timestamp(2025, 1, 1, 8, 30)
    requires ThreadId(early) in world.channels && ThreadId(late) in world.channels
    requires world.sendSucceeds
    modifies bot
  {
    assert AfterScheduleTime(early, Timestamp(2025, 1, 1, 8, 45));
    assert forall i :: 0 <= i < |bot.queue| ==> ThreadId(bot.queue[i]) in world.channels;
    var outcome := bot.CheckAndPublishThread(Timestamp(2025, 1, 1, 8, 45), world);
    assert outcome == Fired(ThreadId(early));
    assert bot.queue == [late];
    assert BeforeScheduleTime(late, Timestamp(2025, 1, 1, 8, 50));
    assert forall i :: 0 <= i < |bot.queue| ==> ThreadId(bot.queue[i]) in world.channels;
    outcome := bot.CheckAndPublishThread(Timestamp(2025, 1, 1, 8, 50), world);
    assert outcome == NotDue && bot.queue == [late];
  }
}
