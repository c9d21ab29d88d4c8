/**
 * The "other reminder" store: reminders `{id, user_id, content, time}` with a
 * global id counter, a per-user two-step add flow (content, then time) and a
 * record of which reminders were marked done on which date.
 */
module OtherReminder {
  import opened Wrappers
  import opened Text
  import Seqs

  datatype Reminder = Reminder(id: int, userId: string, content: string, time: string)

  /** An entry of `add_other_reminder_state`: the step reached and the content given so far. */
  datatype AddFlow = AddFlow(step: int, content: Option<string>)

  /** A key of `today_other_reminder_status`. */
  datatype DoneKey = DoneKey(userId: string, content: string, time: string, date: string)

  /** The fixed time slots offered to every user. */
  const CommonTimes: seq<string> := ["08:00", "12:00", "18:00", "21:00"]

  const DuplicateMessage: string := "此提醒內容和時間已存在"
  const AddedMessage: string := "新增成功！"
  const BadTimeMessage: string := "時間格式錯誤，請使用 HH:MM 格式（例如：08:30）"
  const RestartMessage: string := "新增失敗，請重新開始。"

  // ----- `is_valid_time_format`: the pattern ^([01]?[0-9]|2[0-3]):[0-5][0-9]$ -----

  /** `[01]?[0-9]|2[0-3]` matched against the whole of `h`. */
  predicate HourField(h: string) {
    (|h| == 1 && IsAsciiDigit(h[0]))
    || (|h| == 2 && (h[0] == '0' || h[0] == '1') && IsAsciiDigit(h[1]))
    || (|h| == 2 && h[0] == '2' && '0' <= h[1] <= '3')
  }

  /** `[0-5][0-9]` matched against the whole of `m`. */
  predicate MinuteField(m: string) {
    |m| == 2 && '0' <= m[0] <= '5' && IsAsciiDigit(m[1])
  }

  predicate TimeBody(b: string) {
    |b| >= 4 && b[|b| - 3] == ':' && HourField(b[..|b| - 3]) && MinuteField(b[|b| - 2..])
  }

  /**
   * `re.match` anchored with `^` and `$`; Python's `$` also matches just
   * before one final newline.
   */
  predicate IsValidTimeFormat(s: string) {
    TimeBody(s) || (|s| > 0 && s[|s| - 1] == '\n' && TimeBody(s[..|s| - 1]))
  }

  /** The spelling of hour `h` and minute `m`, with the hour's leading zero when `padded`. */
  function TimeText(h: nat, m: nat, padded: bool): string
    requires h < 24 && m < 60
  {
    (if padded || h >= 10 then [DigitChar(h / 10), DigitChar(h % 10)] else [DigitChar(h)])
    + ":" + [DigitChar(m / 10), DigitChar(m % 10)]
  }

  /** Every clock time 00:00-23:59 passes, with or without the hour's leading zero. */
  lemma TimeTextIsValid(h: nat, m: nat, padded: bool)
    requires h < 24 && m < 60
    ensures IsValidTimeFormat(TimeText(h, m, padded))
    ensures IsValidTimeFormat(TimeText(h, m, padded) + "\n")
  {
    var s := TimeText(h, m, padded);
    var hs := if padded || h >= 10 then [DigitChar(h / 10), DigitChar(h % 10)] else [DigitChar(h)];
    assert s[..|s| - 3] == hs;
    assert s[|s| - 2..] == [DigitChar(m / 10), DigitChar(m % 10)];
    assert TimeBody(s);
    var s' := s + "\n";
    assert s'[..|s'| - 1] == s;
  }

  function DigitAt(s: string, k: nat): nat
    requires k < |s| && IsAsciiDigit(s[k])
  {
    s[k] as int - '0' as int
  }

  /** The hour a matching hour field denotes, and its spelling back. */
  lemma HourFieldValue(hs: string) returns (h: nat)
    requires HourField(hs)
    ensures h < 24
    ensures |hs| == 2 ==> hs == [DigitChar(h / 10), DigitChar(h % 10)]
    ensures |hs| == 1 ==> h < 10 && hs == [DigitChar(h)]
  {
    if |hs| == 1 {
      h := DigitAt(hs, 0);
    } else {
      var d0, d1 := DigitAt(hs, 0), DigitAt(hs, 1);
      h := d0 * 10 + d1;
      assert h / 10 == d0 && h % 10 == d1;
    }
  }

  /** The minute a matching minute field denotes, and its spelling back. */
  lemma MinuteFieldValue(ms: string) returns (m: nat)
    requires MinuteField(ms)
    ensures m < 60 && ms == [DigitChar(m / 10), DigitChar(m % 10)]
  {
    var d0, d1 := DigitAt(ms, 0), DigitAt(ms, 1);
    m := d0 * 10 + d1;
    assert m / 10 == d0 && m % 10 == d1;
  }

  /**
   * Everything the check accepts is a clock time spelled as `TimeText`
   * (optionally followed by one newline): the converse of `TimeTextIsValid`.
   */
  lemma ValidTimeIsTimeText(s: string) returns (h: nat, m: nat, padded: bool)
    requires IsValidTimeFormat(s)
    ensures h < 24 && m < 60
    ensures s == TimeText(h, m, padded) || s == TimeText(h, m, padded) + "\n"
  {
    var b := if TimeBody(s) then s else s[..|s| - 1];
    assert s == b || s == b + "\n";
    var hs, ms := b[..|b| - 3], b[|b| - 2..];
    assert b == hs + ":" + ms;
    h := HourFieldValue(hs);
    m := MinuteFieldValue(ms);
    padded := |hs| == 2;
  }

  /** A five-character `HH:MM` passes when its digits are in range. */
  lemma PaddedTimeValid(s: string)
    requires |s| == 5 && s[2] == ':'
    requires (('0' <= s[0] <= '1' && IsAsciiDigit(s[1])) || (s[0] == '2' && '0' <= s[1] <= '3'))
    requires '0' <= s[3] <= '5' && IsAsciiDigit(s[4])
    ensures IsValidTimeFormat(s)
  {
    assert s[..2] == [s[0], s[1]] && s[3..] == [s[3], s[4]];
  }

  /** The shared time slots are all well-formed times. */
  lemma CommonTimesAreValid()
    ensures forall k :: 0 <= k < |CommonTimes| ==> IsValidTimeFormat(CommonTimes[k])
  {
    forall k | 0 <= k < |CommonTimes| ensures IsValidTimeFormat(CommonTimes[k]) {
      PaddedTimeValid(CommonTimes[k]);
    }
  }

  // ----- read-only views -----

  function OfUser(u: string): Reminder -> bool {
    (r: Reminder) => r.userId == u
  }

  function AtTime(t: string): Reminder -> bool {
    (r: Reminder) => r.time == t
  }

  predicate SortedByTime(rs: seq<Reminder>) {
    forall i, j :: 0 <= i < j < |rs| ==> LexLe(rs[i].time, rs[j].time)
  }

  /** Puts `x` before the first element whose time is not smaller. */
  function InsertByTime(x: Reminder, l: seq<Reminder>): seq<Reminder> {
    if l == [] || LexLe(x.time, l[0].time) then [x] + l
    else [l[0]] + InsertByTime(x, l[1..])
  }

  /** `sorted(rs, key=lambda r: r['time'])`: a stable sort on the time string. */
  function SortByTime(rs: seq<Reminder>): seq<Reminder> {
    if rs == [] then [] else InsertByTime(rs[0], SortByTime(rs[1..]))
  }

  /** Putting in front an element no later than any other keeps the order. */
  lemma SortedCons(y: Reminder, t: seq<Reminder>)
    requires SortedByTime(t)
    requires forall k :: 0 <= k < |t| ==> LexLe(y.time, t[k].time)
    ensures SortedByTime([y] + t)
  {
    var r := [y] + t;
    forall i, j | 0 <= i < j < |r| ensures LexLe(r[i].time, r[j].time) {
      assert r[j] == t[j - 1];
      if i > 0 { assert r[i] == t[i - 1]; }
    }
  }

  lemma {:induction false} InsertByTimeSorted(x: Reminder, l: seq<Reminder>)
    requires SortedByTime(l)
    ensures SortedByTime(InsertByTime(x, l))
    ensures multiset(InsertByTime(x, l)) == multiset(l) + multiset{x}
  {
    if l == [] || LexLe(x.time, l[0].time) {
      forall k | 0 <= k < |l| ensures LexLe(x.time, l[k].time) {
        if k > 0 { LexLeTransitive(x.time, l[0].time, l[k].time); }
      }
      SortedCons(x, l);
    } else {
      LexLeTotal(x.time, l[0].time);
      var rest := l[1..];
      assert SortedByTime(rest) by {
        forall i, j | 0 <= i < j < |rest| ensures LexLe(rest[i].time, rest[j].time) {
          assert rest[i] == l[i + 1] && rest[j] == l[j + 1];
        }
      }
      InsertByTimeSorted(x, rest);
      var tail := InsertByTime(x, rest);
      assert l == [l[0]] + rest;
      forall k | 0 <= k < |tail| ensures LexLe(l[0].time, tail[k].time) {
        assert tail[k] in multiset(rest) + multiset{x};
        if tail[k] != x {
          var j :| 0 <= j < |rest| && rest[j] == tail[k];
          assert l[j + 1] == tail[k];
        }
      }
      SortedCons(l[0], tail);
    }
  }

  /** Inserting never moves `x` past an element with the same time. */
  lemma {:induction false} InsertByTimeAt(x: Reminder, l: seq<Reminder>, t: string)
    ensures Seqs.Filter(InsertByTime(x, l), AtTime(t))
         == (if x.time == t then [x] else []) + Seqs.Filter(l, AtTime(t))
  {
    var p := AtTime(t);
    if l == [] || LexLe(x.time, l[0].time) {
      Seqs.FilterCons(x, l, p);
    } else {
      LexLeReflexive(x.time);
      assert l[0].time != x.time;
      var rest := InsertByTime(x, l[1..]);
      InsertByTimeAt(x, l[1..], t);
      Seqs.FilterCons(l[0], rest, p);
      Seqs.FilterCons(l[0], l[1..], p);
      assert l == [l[0]] + l[1..];
    }
  }

  /**
   * The sort is ordered by time, loses and invents nothing, and keeps the
   * input order among reminders with the same time (Python's sort is stable).
   */
  lemma {:induction false} SortByTimeCorrect(rs: seq<Reminder>, t: string)
    ensures SortedByTime(SortByTime(rs))
    ensures multiset(SortByTime(rs)) == multiset(rs)
    ensures Seqs.Filter(SortByTime(rs), AtTime(t)) == Seqs.Filter(rs, AtTime(t))
  {
    if rs != [] {
      SortByTimeCorrect(rs[1..], t);
      InsertByTimeSorted(rs[0], SortByTime(rs[1..]));
      InsertByTimeAt(rs[0], SortByTime(rs[1..]), t);
      assert rs == [rs[0]] + rs[1..];
    }
  }

  /** `get_other_reminders(u)`: the user's reminders sorted by time. */
  function UserReminders(db: seq<Reminder>, u: string): seq<Reminder> {
    SortByTime(Seqs.Filter(db, OfUser(u)))
  }

  /**
   * `get_other_reminders(u)` holds exactly `u`'s reminders, ordered by the
   * time string, and reminders at the same time stay in store order.
   */
  lemma UserRemindersSpec(db: seq<Reminder>, u: string, t: string)
    ensures SortedByTime(UserReminders(db, u))
    ensures forall r :: r in UserReminders(db, u) <==> r in db && r.userId == u
    ensures Seqs.Filter(UserReminders(db, u), AtTime(t))
         == Seqs.Filter(Seqs.Filter(db, OfUser(u)), AtTime(t))
  {
    var mine := Seqs.Filter(db, OfUser(u));
    SortByTimeCorrect(mine, t);
    forall r ensures r in UserReminders(db, u) <==> r in db && r.userId == u {
      calc {
        r in UserReminders(db, u);
        r in multiset(UserReminders(db, u));
        r in multiset(mine);
        r in mine;
      }
      if r in db && r.userId == u {
        var k :| 0 <= k < |db| && db[k] == r;
        assert OfUser(u)(db[k]);
      }
    }
  }

  /** `get_other_reminders_by_time(t)`: `(user_id, content)` of every reminder at `t`, in store order. */
  function RemindersAt(db: seq<Reminder>, t: string): (r: seq<(string, string)>)
    ensures |r| == |Seqs.Filter(db, AtTime(t))|
    ensures forall k :: 0 <= k < |r| ==>
      var x := Seqs.Filter(db, AtTime(t))[k]; x.time == t && r[k] == (x.userId, x.content)
  {
    var at := Seqs.Filter(db, AtTime(t));
    seq(|at|, k requires 0 <= k < |at| => (at[k].userId, at[k].content))
  }

  /** The slot view lists a reminder exactly when the store holds one at that time. */
  lemma RemindersAtComplete(db: seq<Reminder>, t: string, u: string, c: string)
    ensures (u, c) in RemindersAt(db, t)
        <==> exists k :: 0 <= k < |db| && db[k] == Reminder(db[k].id, u, c, t)
  {
    var at := Seqs.Filter(db, AtTime(t));
    var view := RemindersAt(db, t);
    if (u, c) in view {
      var i :| 0 <= i < |view| && view[i] == (u, c);
      var k :| 0 <= k < |db| && db[k] == at[i];
    }
    if exists k :: 0 <= k < |db| && db[k] == Reminder(db[k].id, u, c, t) {
      var k :| 0 <= k < |db| && db[k] == Reminder(db[k].id, u, c, t);
      assert AtTime(t)(db[k]);
      var i :| 0 <= i < |at| && at[i] == db[k];
      assert view[i] == (u, c);
    }
  }

  // ----- duplicates -----

  /** Same user, same content ignoring case, same time. */
  predicate Clashes(r: Reminder, u: string, content: string, time: string) {
    r.userId == u && Lower(r.content) == Lower(content) && r.time == time
  }

  /** `other_reminder_exists`: a clash among the user's sorted reminders. */
  predicate ReminderExists(db: seq<Reminder>, u: string, content: string, time: string) {
    exists r :: r in UserReminders(db, u) && Clashes(r, u, content, time)
  }

  /** Looking through the sorted per-user view finds a clash iff the store holds one. */
  lemma ReminderExistsIff(db: seq<Reminder>, u: string, content: string, time: string)
    ensures ReminderExists(db, u, content, time)
        <==> exists k :: 0 <= k < |db| && Clashes(db[k], u, content, time)
  {
    UserRemindersSpec(db, u, time);
    if exists k :: 0 <= k < |db| && Clashes(db[k], u, content, time) {
      var k :| 0 <= k < |db| && Clashes(db[k], u, content, time);
      assert db[k] in UserReminders(db, u);
    }
  }

  ghost predicate IdsIncreasing(db: seq<Reminder>) {
    Seqs.Pairwise(db, (a: Reminder, b: Reminder) => a.id < b.id)
  }

  ghost predicate NoDuplicates(db: seq<Reminder>) {
    Seqs.Pairwise(db, (a: Reminder, b: Reminder) => !Clashes(b, a.userId, a.content, a.time))
  }

  function Keeps(u: string, id: int): Reminder -> bool {
    (r: Reminder) => !(r.userId == u && r.id == id)
  }

  /** With distinct ids, deleting by (user, id) removes at most one reminder. */
  lemma {:induction false} DeleteRemovesAtMostOne(db: seq<Reminder>, u: string, id: int)
    requires IdsIncreasing(db)
    ensures |Seqs.Filter(db, Keeps(u, id))|
         == |db| - (if exists k :: 0 <= k < |db| && db[k].userId == u && db[k].id == id then 1 else 0)
  {
    if db != [] {
      var rest := db[1..];
      assert IdsIncreasing(rest);
      DeleteRemovesAtMostOne(rest, u, id);
      if db[0].userId == u && db[0].id == id {
        forall k | 0 <= k < |rest| ensures !(rest[k].userId == u && rest[k].id == id) {
          assert db[0].id < db[k + 1].id;
        }
        assert !exists k :: 0 <= k < |rest| && rest[k].userId == u && rest[k].id == id;
      } else {
        var hit := exists k :: 0 <= k < |db| && db[k].userId == u && db[k].id == id;
        var hitRest := exists k :: 0 <= k < |rest| && rest[k].userId == u && rest[k].id == id;
        if hit {
          var k :| 0 <= k < |db| && db[k].userId == u && db[k].id == id;
          assert rest[k - 1] == db[k];
        }
        if hitRest {
          var k :| 0 <= k < |rest| && rest[k].userId == u && rest[k].id == id;
          assert db[k + 1] == rest[k];
        }
        assert hit == hitRest;
      }
    }
  }

  predicate FlowOk(f: AddFlow) {
    (f.step == 1 && f.content.None?) || (f.step == 2 && f.content.Some?)
  }

  /** The module-level stores of other_reminder.py, owned by one object. */
  class ReminderStore {
    var reminders: seq<Reminder>            // other_reminders_db
    var nextId: int                         // other_reminder_id_counter[0]
    var addState: map<string, AddFlow>      // add_other_reminder_state
    var doneStatus: map<DoneKey, bool>      // today_other_reminder_status

    /**
     * Ids are strictly increasing in store order and below the counter, no
     * user holds two clashing reminders, every flow entry is at step 1
     * without content or at step 2 with content, and only `True` is stored
     * as a done mark.
     */
    ghost predicate Valid()
      reads this
    {
      && 1 <= nextId
      && IdsIncreasing(reminders)
      && (forall k :: 0 <= k < |reminders| ==> 1 <= reminders[k].id < nextId)
      && NoDuplicates(reminders)
      && (forall u :: u in addState ==> FlowOk(addState[u]))
      && (forall key :: key in doneStatus ==> doneStatus[key])
    }

    constructor ()
      ensures Valid()
      ensures reminders == [] && nextId == 1 && addState == map[] && doneStatus == map[]
    {
      reminders := [];
      nextId := 1;
      addState := map[];
      doneStatus := map[];
    }

    /** `add_other_reminder`: refuse a clash, otherwise append with the next id. */
    method Add(userId: string, content: string, time: string) returns (id: Option<int>, message: string)
      requires Valid()
      modifies this
      ensures Valid()
      ensures old(ReminderExists(reminders, userId, content, time)) ==>
        && id == None && message == DuplicateMessage
        && reminders == old(reminders) && nextId == old(nextId)
      ensures !old(ReminderExists(reminders, userId, content, time)) ==>
        && id == Some(old(nextId)) && message == AddedMessage
        && reminders == old(reminders) + [Reminder(old(nextId), userId, content, time)]
        && nextId == old(nextId) + 1
      ensures id.Some? ==> forall k :: 0 <= k < |old(reminders)| ==> old(reminders)[k].id < id.value
      ensures addState == old(addState) && doneStatus == old(doneStatus)
    {
      if ReminderExists(reminders, userId, content, time) {
        return None, DuplicateMessage;
      }
      ReminderExistsIff(reminders, userId, content, time);
      var added := Reminder(nextId, userId, content, time);
      ghost var before := reminders;
      reminders := reminders + [added];
      nextId := nextId + 1;
      forall i, j | 0 <= i < j < |reminders|
        ensures reminders[i].id < reminders[j].id
        ensures !Clashes(reminders[j], reminders[i].userId, reminders[i].content, reminders[i].time)
      {
        if j == |before| {
          assert !Clashes(before[i], userId, content, time);
        } else {
          assert reminders[i] == before[i] && reminders[j] == before[j];
        }
      }
      id, message := Some(added.id), AddedMessage;
    }

    /** `delete_other_reminder`: drop the user's reminder with that id; report whether one went. */
    method Delete(userId: string, remId: int) returns (removed: bool)
      requires Valid()
      modifies this
      ensures Valid()
      ensures reminders == Seqs.Filter(old(reminders), Keeps(userId, remId))
      ensures forall r :: r in reminders <==> r in old(reminders) && !(r.userId == userId && r.id == remId)
      ensures removed <==> exists k :: 0 <= k < |old(reminders)|
                            && old(reminders)[k].userId == userId && old(reminders)[k].id == remId
      ensures |reminders| == |old(reminders)| - (if removed then 1 else 0)
      ensures nextId == old(nextId) && addState == old(addState) && doneStatus == old(doneStatus)
    {
      var before := |reminders|;
      ghost var was := reminders;
      reminders := Seqs.Filter(reminders, Keeps(userId, remId));
      removed := |reminders| < before;
      DeleteRemovesAtMostOne(was, userId, remId);
      Seqs.FilterPairwise(was, Keeps(userId, remId), (a: Reminder, b: Reminder) => a.id < b.id);
      Seqs.FilterPairwise(was, Keeps(userId, remId),
        (a: Reminder, b: Reminder) => !Clashes(b, a.userId, a.content, a.time));
      forall r ensures r in reminders <==> r in was && !(r.userId == userId && r.id == remId) {
        if r in was && Keeps(userId, remId)(r) {
          var k :| 0 <= k < |was| && was[k] == r;
        }
      }
    }

    /** `start_add_other_reminder`: (re)open the flow at step 1 with no content. */
    method StartAdd(userId: string)
      requires Valid()
      modifies this
      ensures Valid()
      ensures addState == old(addState)[userId := AddFlow(1, None)]
      ensures reminders == old(reminders) && nextId == old(nextId) && doneStatus == old(doneStatus)
    {
      addState := addState[userId := AddFlow(1, None)];
    }

    /**
     * `set_other_reminder_content`: for a user in the flow, whatever the
     * step, keep the stripped content and move to step 2; others are ignored.
     */
    method SetContent(userId: string, content: string)
      requires Valid()
      modifies this
      ensures Valid()
      ensures userId in old(addState) ==>
        addState == old(addState)[userId := AddFlow(2, Some(Strip(content)))]
      ensures userId !in old(addState) ==> addState == old(addState)
      ensures reminders == old(reminders) && nextId == old(nextId) && doneStatus == old(doneStatus)
    {
      if userId in addState {
        addState := addState[userId := AddFlow(2, Some(Strip(content)))];
      }
    }

    /**
     * `finish_add_other_reminder`: at step 2, strip and check the time, then
     * add; only a successful add closes the flow, a bad time or a clash
     * leaves the user at step 2 to try again.
     */
    method FinishAdd(userId: string, time: string) returns (ok: bool, message: string)
      requires Valid()
      modifies this
      ensures Valid()
      ensures doneStatus == old(doneStatus)
      ensures !(userId in old(addState) && old(addState)[userId].step == 2) ==>
        && !ok && message == RestartMessage
        && reminders == old(reminders) && nextId == old(nextId) && addState == old(addState)
      ensures userId in old(addState) && old(addState)[userId].step == 2 && !IsValidTimeFormat(Strip(time)) ==>
        && !ok && message == BadTimeMessage
        && reminders == old(reminders) && nextId == old(nextId) && addState == old(addState)
      ensures userId in old(addState) && old(addState)[userId].step == 2 && IsValidTimeFormat(Strip(time)) ==>
        var content := old(addState)[userId].content.value;
        if old(ReminderExists(reminders, userId, content, Strip(time))) then
          && !ok && message == DuplicateMessage
          && reminders == old(reminders) && nextId == old(nextId) && addState == old(addState)
        else
          && ok && message == AddedMessage
          && reminders == old(reminders) + [Reminder(old(nextId), userId, content, Strip(time))]
          && nextId == old(nextId) + 1
          && addState == old(addState) - {userId}
    {
      if userId in addState && addState[userId].step == 2 {
        var t := Strip(time);
        if !IsValidTimeFormat(t) {
          return false, BadTimeMessage;
        }
        var content := addState[userId].content.value;
        var id;
        id, message := Add(userId, content, t);
        if id.Some? {
          addState := addState - {userId};
          ok := true;
        } else {
          ok := false;
        }
        return;
      }
      return false, RestartMessage;
    }

    /** `is_adding_other_reminder`. */
    predicate IsAdding(userId: string)
      reads this
      requires Valid()
      ensures IsAdding(userId) <==> AddStep(userId) != 0
    {
      userId in addState
    }

    /** `cancel_add_other_reminder`: leave the flow; cancelling twice is the same as once. */
    method CancelAdd(userId: string)
      requires Valid()
      modifies this
      ensures Valid()
      ensures addState == old(addState) - {userId}
      ensures userId !in old(addState) ==> addState == old(addState)
      ensures reminders == old(reminders) && nextId == old(nextId) && doneStatus == old(doneStatus)
    {
      addState := addState - {userId};
    }

    /** `get_add_other_reminder_step`: 1 or 2 inside the flow, 0 outside it. */
    function AddStep(userId: string): (step: int)
      reads this
      requires Valid()
      ensures step == 0 || step == 1 || step == 2
      ensures step == 0 <==> userId !in addState
      ensures step == 2 <==> userId in addState && addState[userId].content.Some?
    {
      if userId in addState then addState[userId].step else 0
    }

    /** `mark_other_reminder_done`: record the exact key as done; marking again changes nothing. */
    method MarkDone(userId: string, content: string, time: string, date: string)
      requires Valid()
      modifies this
      ensures Valid()
      ensures doneStatus == old(doneStatus)[DoneKey(userId, content, time, date) := true]
      ensures old(IsDone(userId, content, time, date)) ==> doneStatus == old(doneStatus)
      ensures reminders == old(reminders) && nextId == old(nextId) && addState == old(addState)
    {
      doneStatus := doneStatus[DoneKey(userId, content, time, date) := true];
    }

    /** `is_other_reminder_done`: true exactly for the keys marked so far (content compared exactly). */
    predicate IsDone(userId: string, content: string, time: string, date: string)
      reads this
      requires Valid()
      ensures IsDone(userId, content, time, date) <==> DoneKey(userId, content, time, date) in doneStatus
    {
      var key := DoneKey(userId, content, time, date);
      key in doneStatus && doneStatus[key]
    }
  }

  lemma StripExamples()
    ensures Strip("  Aspirin ") == "Aspirin"
    ensures Strip(" 08:00 ") == "08:00"
    ensures Strip("25:00") == "25:00"
  {
    StripPadded();
    StripTime();
    StripPlainTime();
  }

  lemma StripPlainTime()
    ensures Strip("25:00") == "25:00"
  {
    var s := "25:00";
    assert !IsSpace(s[0]) && !IsSpace(s[4]);
    assert LeadingSpaces(s) == 0 && TrailingSpaces(s) == 0;
    assert s[0..][..5] == s;
  }

  lemma StripPadded()
    ensures Strip("  Aspirin ") == "Aspirin"
  {
    var a := "  Aspirin ";
    assert a[1..][1..] == a[2..] && !IsSpace(a[2]);
    assert LeadingSpaces(a) == 2;
    var t := a[2..];
    assert t == "Aspirin " && t[..|t| - 1] == "Aspirin" && !IsSpace('n');
    assert TrailingSpaces(t) == 1;
  }

  lemma StripTime()
    ensures Strip(" 08:00 ") == "08:00"
  {
    var b := " 08:00 ";
    assert b[1..] == "08:00 " && !IsSpace('0');
    assert LeadingSpaces(b) == 1;
    var t := b[1..];
    assert t[..|t| - 1] == "08:00";
    assert TrailingSpaces(t) == 1;
  }

  lemma TimeExamples()
    ensures IsValidTimeFormat("08:00") && IsValidTimeFormat("8:30") && IsValidTimeFormat("23:59")
    ensures IsValidTimeFormat("23:59\n")
    ensures !IsValidTimeFormat("25:00") && !IsValidTimeFormat("24:00")
    ensures !IsValidTimeFormat("08:60") && !IsValidTimeFormat("8:5")
  {
    TimeTextIsValid(8, 0, true);
    assert TimeText(8, 0, true) == "08:00";
    TimeTextIsValid(8, 30, false);
    assert TimeText(8, 30, false) == "8:30";
    TimeTextIsValid(23, 59, false);
    assert TimeText(23, 59, false) == "23:59";
  }

  /** The view orders times as strings: "18:00" comes before "8:00". */
  lemma TimesCompareAsStrings()
    ensures LexLe("18:00", "8:00") && !LexLe("8:00", "18:00")
  {
    assert "18:00"[0] < "8:00"[0];
  }

  lemma ClashExample()
    ensures ReminderExists([Reminder(1, "u1", "Aspirin", "08:00")], "u1", "ASPIRIN", "08:00")
  {
    LowerExample();
    var db := [Reminder(1, "u1", "Aspirin", "08:00")];
    assert Clashes(db[0], "u1", "ASPIRIN", "08:00");
    ReminderExistsIff(db, "u1", "ASPIRIN", "08:00");
  }

  lemma LowerExample()
    ensures Lower("Aspirin") == Lower("ASPIRIN")
  {
    var x, y := Lower("Aspirin"), Lower("ASPIRIN");
    forall k | 0 <= k < 7 ensures x[k] == y[k] {
      assert LowerChar("Aspirin"[k]) == LowerChar("ASPIRIN"[k]);
    }
  }

  lemma EmptyStoreHasNoClash(u: string, content: string, time: string)
    ensures !ReminderExists([], u, content, time)
  {
    ReminderExistsIff([], u, content, time);
  }

  /** The add flow of one user end to end, including the bad-time retry. */
  method AddFlowWalkthrough()
  {
    StripExamples();
    TimeExamples();
    EmptyStoreHasNoClash("u1", "Aspirin", "08:00");
    var store := new ReminderStore();
    store.StartAdd("u1");
    assert store.AddStep("u1") == 1;
    store.SetContent("u1", "  Aspirin ");
    assert store.addState["u1"] == AddFlow(2, Some("Aspirin"));
    var ok, msg := store.FinishAdd("u1", "25:00");
    assert !ok && store.AddStep("u1") == 2 && store.reminders == [];
    ok, msg := store.FinishAdd("u1", " 08:00 ");
    assert ok && store.AddStep("u1") == 0;
    assert store.reminders == [Reminder(1, "u1", "Aspirin", "08:00")];
  }

  /** A clash that differs only in letter case is refused. */
  method DuplicateWalkthrough()
  {
    EmptyStoreHasNoClash("u1", "Aspirin", "08:00");
    var store := new ReminderStore();
    var first, msg := store.Add("u1", "Aspirin", "08:00");
    assert store.reminders == [Reminder(1, "u1", "Aspirin", "08:00")];
    ClashExample();
    ghost var db := store.reminders;
    var second, msg2 := store.Add("u1", "ASPIRIN", "08:00");
    assert second == None && msg2 == DuplicateMessage && store.reminders == db;
  }

  /** Done marks compare content exactly. */
  method DoneWalkthrough()
  {
    var store := new ReminderStore();
    store.MarkDone("u1", "Aspirin", "08:00", "2025-06-11");
    assert store.IsDone("u1", "Aspirin", "08:00", "2025-06-11");
    assert "aspirin"[0] != "Aspirin"[0];
    assert !store.IsDone("u1", "aspirin", "08:00", "2025-06-11");
  }
}
