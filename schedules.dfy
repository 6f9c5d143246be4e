/**
 * The `Schedule` class of main.py:33-93: a request built once from an inbound message and
 * never changed afterwards, so it is modelled as a value.
 */
module Schedules {
  import opened Wrappers
  import opened Timestamps
  import opened Grammar

  /** An inbound chat message: its id (reactions are attached to it), its channel, its text. */
  datatype Message = Message(id: nat, channelId: nat, content: string)

  /**
   * A `Schedule` after `__init__`. An attribute that `__init__` returned before assigning
   * is `None` here (in Python reading it raises `AttributeError`).
   */
  datatype Schedule = Schedule(
    message: Message,
    validFormatFlag: bool,
    threadId: Option<nat>,
    publishTime: Option<Timestamp>)
  {
    /** `is_valid()`. */
    predicate IsValid() {
      validFormatFlag
    }
  }

  /**
   * `Schedule(message)`: match the pattern; on a match take `int` of the digits and
   * `strptime` of the date-time, swallowing the error `strptime` raises for a date the
   * calendar does not have; then set the flag when `get_channel(thread_id)` finds a channel.
   * `channels` is the set of ids `get_channel` resolves at that moment.
   */
  function NewSchedule(msg: Message, channels: set<nat>): (s: Schedule)
    ensures s.message == msg
    ensures s.IsValid() ==> s.threadId.Some? && s.threadId.value in channels
    ensures s.publishTime.Some? ==> s.threadId.Some? && IsCalendarValid(s.publishTime.value)
  {
    match MatchMessage(msg.content)
    case None => Schedule(msg, false, None, None)
    case Some(g) =>
      MatchOnlyGrammar(msg.content);
      var id := DecimalValue(g.digits);
      Schedule(msg, id in channels, Some(id), ParseStamp(g.stamp))
  }

  /** On a text of the grammar, the id is the decimal value of the digits and the time is what strptime reads. */
  lemma NewScheduleReadsGroups(msg: Message, channels: set<nat>, g: Groups)
    requires WellFormed(g) && Render(g) == msg.content
    ensures var s := NewSchedule(msg, channels);
      && s.threadId == Some(DecimalValue(g.digits))
      && s.publishTime == ParseStamp(g.stamp)
      && (s.IsValid() <==> DecimalValue(g.digits) in channels)
  {
    MatchAcceptsGrammar(g);
  }

  /** `is_valid()` holds exactly when the text is in the grammar and its thread id resolves. */
  lemma IsValidIff(msg: Message, channels: set<nat>)
    ensures NewSchedule(msg, channels).IsValid() <==>
      exists g :: WellFormed(g) && Render(g) == msg.content && DecimalValue(g.digits) in channels
  {
    MatchIff(msg.content);
    if MatchMessage(msg.content).Some? {
      var g := MatchMessage(msg.content).value;
      MatchOnlyGrammar(msg.content);
      forall g' | WellFormed(g') && Render(g') == msg.content
        ensures g' == g
      {
        MatchAcceptsGrammar(g');
      }
    }
  }

  /** A schedule that can sit in the queue: both attributes were assigned. */
  type Entry = s: Schedule | s.threadId.Some? && s.publishTime.Some?
    witness Schedule(Message(0, 0, []), true, Some(0), Some(Timestamp(1, 1, 1, 0, 0)))

  /** `get_thread_id()`. */
  function ThreadId(e: Entry): nat {
    e.threadId.value
  }

  /** `get_time()`. */
  function PublishTime(e: Entry): Timestamp {
    e.publishTime.value
  }

  /** `__lt__`: the sort key is the publish time alone. */
  predicate ScheduleLess(a: Entry, b: Entry) {
    Less(PublishTime(a), PublishTime(b))
  }

  /** `after_schedule_time()` with the clock reading `now`: `now >= publish_time`. */
  predicate AfterScheduleTime(e: Entry, now: Timestamp) {
    LessEq(PublishTime(e), now)
  }

  /** `before_schedule_time()` with the clock reading `now`: `now < publish_time`. */
  predicate BeforeScheduleTime(e: Entry, now: Timestamp) {
    Less(now, PublishTime(e))
  }

  /** For one clock reading exactly one of the two due-time tests holds. */
  lemma DueTestsComplement(e: Entry, now: Timestamp)
    ensures AfterScheduleTime(e, now) <==> !BeforeScheduleTime(e, now)
  {
  }

  /** `__lt__` orders entries as a strict weak order: irreflexive, transitive, ties comparable. */
  lemma ScheduleLessIsStrictWeakOrder(a: Entry, b: Entry, c: Entry)
    ensures !ScheduleLess(a, a)
    ensures ScheduleLess(a, b) && ScheduleLess(b, c) ==> ScheduleLess(a, c)
    ensures !ScheduleLess(a, b) && !ScheduleLess(b, a) <==> PublishTime(a) == PublishTime(b)
  {
  }

  /** The test `on_message` applies as written: `is_valid() and get_thread()` (main.py:145). */
  predicate PassesChecks(s: Schedule, channels: set<nat>) {
    s.IsValid() && s.threadId.Some? && s.threadId.value in channels
  }

  lemma ImpossibleStampYear()
    ensures Padded(2025, 4) == "2025"
  {
    assert Padded(0, 0) == [];
    assert Padded(2, 1) == ['2'];
    assert Padded(20, 2) == ['2', '0'];
    assert Padded(202, 3) == ['2', '0', '2'];
  }

  lemma ImpossibleStampOtherFields()
    ensures Padded(2, 2) == "02" && Padded(30, 2) == "30" && Padded(9, 2) == "09" && Padded(0, 2) == "00"
  {
    assert Padded(0, 1) == ['0'] && Padded(3, 1) == ['3'];
  }

  lemma ImpossibleStampSpelling()
    ensures FormatStamp(Timestamp(2025, 2, 30, 9, 0)) == "2025-02-30T09:00"
  {
    ImpossibleStampYear();
    ImpossibleStampOtherFields();
  }

  /** `strptime` refuses the 30th of February 2025. */
  lemma ImpossibleStampRefused()
    ensures IsStampShape("2025-02-30T09:00") && ParseStamp("2025-02-30T09:00") == None
  {
    var t := Timestamp(2025, 2, 30, 9, 0);
    FormatStampFields(t);
    ImpossibleStampSpelling();
    assert !IsCalendarValid(t);
  }

  lemma ImpossibleRequestText()
    ensures Render(Groups("7", "2025-02-30T09:00")) == "thread_id@7,publish_date@2025-02-30T09:00"
  {
    assert Prefix + "7" == "thread_id@7";
    assert "thread_id@7" + Separator == "thread_id@7,publish_date@";
    assert "thread_id@7,publish_date@" + "2025-02-30T09:00" == "thread_id@7,publish_date@2025-02-30T09:00";
  }

  /**
   * As written, a date the calendar does not have passes: strptime raises, the error is
   * swallowed, the thread id is already set and resolves, so the flag is set while
   * `publish_time` was never assigned.
   */
  lemma ImpossibleDatePassesChecks()
    ensures var s := NewSchedule(Message(1, 2, "thread_id@7,publish_date@2025-02-30T09:00"), {7});
      PassesChecks(s, {7}) && s.publishTime == None
  {
    var g := Groups("7", "2025-02-30T09:00");
    ImpossibleStampRefused();
    ImpossibleRequestText();
    assert DecimalValue("7") == 7 by {
      assert "7"[..0] == [];
    }
    NewScheduleReadsGroups(Message(1, 2, Render(g)), {7}, g);
  }

  /**
   * The admission test with the calendar check the source evidently intends: a request is
   * admitted only when its publish time exists as well.
   */
  predicate Admits(s: Schedule, channels: set<nat>) {
    PassesChecks(s, channels) && s.publishTime.Some?
  }

  /** What is admitted is exactly the grammar's texts whose id resolves and whose date exists. */
  lemma AdmitsIff(msg: Message, channels: set<nat>)
    ensures Admits(NewSchedule(msg, channels), channels) <==>
      exists g :: && WellFormed(g) && Render(g) == msg.content
                  && DecimalValue(g.digits) in channels && ParseStamp(g.stamp).Some?
  {
    MatchIff(msg.content);
    if MatchMessage(msg.content).Some? {
      var g := MatchMessage(msg.content).value;
      MatchOnlyGrammar(msg.content);
      forall g' | WellFormed(g') && Render(g') == msg.content
        ensures g' == g
      {
        MatchAcceptsGrammar(g');
      }
    }
  }
}
