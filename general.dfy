/**
 * cogs/general.py: the set_timezone command.
 */
module GeneralCog {
  import opened Wrappers
  import opened Strings
  import opened Database

  datatype TimezoneReply = OffsetOutOfRange | TimezoneSet(text: string)

  const SuccessPrefix := "Your timezone offset is now UTC "

  /** set_timezone: offsets outside [-12, 14] are rejected; the reply prints the offset with its sign. */
  function TimezoneDecision(offset: int): (reply: TimezoneReply)
    ensures reply.OffsetOutOfRange? <==> offset < -12 || offset > 14
    ensures reply.TimezoneSet? ==>
      |reply.text| > |SuccessPrefix| && reply.text[..|SuccessPrefix|] == SuccessPrefix &&
      (reply.text[|SuccessPrefix|] == '+' <==> offset >= 0) &&
      (reply.text[|SuccessPrefix|] == '-' <==> offset < 0) &&
      ParseInt(reply.text[|SuccessPrefix|..]) == Some(offset)
  {
    if offset < -12 || offset > 14 then OffsetOutOfRange
    else
      var text := SuccessPrefix + SignedString(offset);
      assert text[..|SuccessPrefix|] == SuccessPrefix && text[|SuccessPrefix|..] == SignedString(offset);
      SignedStringRoundTrip(offset);
      TimezoneSet(text)
  }

  /** set_timezone: an accepted offset is inserted unchanged; a rejected one touches nothing. */
  method SetTimezone(store: Store, userId: int, offset: int) returns (reply: TimezoneReply)
    requires store.Valid()
    modifies store
    ensures store.Valid()
    ensures reply == TimezoneDecision(offset)
    ensures reply.TimezoneSet? ==> store.timezones == old(store.timezones) + [TimezoneRow(userId, offset)]
    ensures reply.OffsetOutOfRange? ==> store.timezones == old(store.timezones)
    ensures store.tasks == old(store.tasks) && store.reminders == old(store.reminders)
    ensures store.pomodoroSessions == old(store.pomodoroSessions)
    ensures store.nextTaskId == old(store.nextTaskId) && store.nextReminderId == old(store.nextReminderId)
  {
    reply := TimezoneDecision(offset);
    if reply.TimezoneSet? {
      store.SetUserTimezone(userId, offset);
    }
  }

  /** The offset get_user_timezone reads for a user after the store answers normally. */
  function StoredOffset(rows: seq<TimezoneRow>, userId: int): int
  {
    GetUserTimezone(ExecuteQuery("GET", Served(Select(rows, OwnedTimezone(userId)))))
  }

  /**
   * Because set_user_timezone inserts and get_user_timezone reads the first
   * row, in a store that serves rows in insertion order the first offset a
   * user stores is the one every later read returns; later set_timezone
   * calls have no visible effect.
   */
  lemma FirstOffsetWins(rows: seq<TimezoneRow>, userId: int, offset: int)
    ensures Select(rows, OwnedTimezone(userId)) == [] ==>
      StoredOffset(rows + [TimezoneRow(userId, offset)], userId) == offset
    ensures Select(rows, OwnedTimezone(userId)) != [] ==>
      StoredOffset(rows + [TimezoneRow(userId, offset)], userId) == StoredOffset(rows, userId)
    ensures Select(rows, OwnedTimezone(userId)) == [] ==> StoredOffset(rows, userId) == 0
  {
    var owned := OwnedTimezone(userId);
    SelectAppend(rows, [TimezoneRow(userId, offset)], owned);
    ServedRows(Select(rows + [TimezoneRow(userId, offset)], owned));
    ServedRows(Select(rows, owned));
  }

  /** Another user's write never changes what a user reads. */
  lemma OtherUsersIgnored(rows: seq<TimezoneRow>, userId: int, other: int, offset: int)
    requires other != userId
    ensures StoredOffset(rows + [TimezoneRow(other, offset)], userId) == StoredOffset(rows, userId)
  {
    SelectAppend(rows, [TimezoneRow(other, offset)], OwnedTimezone(userId));
  }
}
