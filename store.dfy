/**
 * The process-wide store of main.go: a map from secret code to user, changed
 * in place by the handlers. Each method is the data logic of one handler, with
 * the same loops; what the clock and the random generator would supply is
 * passed in. Calls are taken to run one at a time.
 */
module DiaryServer {
  import opened Options
  import opened Decimal
  import opened Diary
  import DateLayout

  /** The clock readings addEntry takes besides today's date: the creation
      time text, the nanosecond ID given to the log before the search, the one
      it is given again when today's entry exists, and the one a new entry gets. */
  datatype Stamps = Stamps(createAt: string, logId: string, appendedLogId: string, entryId: string)

  /** Every user is filed under its own secret code, and its entries have
      distinct dates, all in the layout "2006-01-02". */
  ghost predicate ValidUsers(users: map<string, User>) {
    forall code :: code in users ==>
      users[code].secretCode == code && ValidEntries(users[code].diaryEntries)
  }

  /** Giving one user new entries that are themselves valid keeps the store valid. */
  lemma ReplaceEntriesKeepsValid(users: map<string, User>, code: string, entries: seq<DiaryEntry>)
    requires ValidUsers(users) && code in users && ValidEntries(entries)
    ensures ValidUsers(users[code := users[code].(diaryEntries := entries)])
  {
  }

  class Store {
    var users: map<string, User>

    ghost predicate Valid()
      reads this
    {
      ValidUsers(users)
    }

    constructor ()
      ensures Valid() && users == map[]
    {
      users := map[];
    }

    /** register: a fresh user with no entries, filed under the generated secret
        code, replacing any user already filed there. `idNum` and `codeNum` are
        the two draws from the random generator, each below 1000000. */
    method Register(idNum: nat, codeNum: nat, name: string, emailAddress: string, dateOfBirth: string)
      returns (user: User)
      requires idNum < 1000000 && codeNum < 1000000
      requires Valid()
      modifies this
      ensures Valid()
      ensures user == User(DecimalString(idNum), DecimalString(codeNum), name, emailAddress, dateOfBirth, [])
      ensures |user.id| <= 6 && |user.secretCode| <= 6
      ensures users == old(users)[user.secretCode := user]
      ensures forall code :: code in old(users) && code != user.secretCode ==> code in users && users[code] == old(users)[code]
    {
      var id := DecimalString(idNum);
      var secretCode := DecimalString(codeNum);
      user := User(id, secretCode, name, emailAddress, dateOfBirth, []);
      users := users[secretCode := user];
      DecimalStringWidth(idNum, 6);
      DecimalStringWidth(codeNum, 6);
    }

    /** login: the user filed under the secret code. */
    method Login(secretCode: string) returns (r: Outcome<User>)
      ensures r.Ok? <==> secretCode in users
      ensures r.Ok? ==> r.value == users[secretCode]
      ensures !r.Ok? ==> r == NotFound(NoSuchUser)
      ensures Valid() && r.Ok? ==> r.value.secretCode == secretCode
    {
      if secretCode !in users {
        return NotFound(NoSuchUser);
      }
      return Ok(users[secretCode]);
    }

    /** showDiaryOfMonth: the user's entries dated in the month and year of
        `now`, in list order; a ParseError as soon as a stored date does not
        parse. */
    method ShowDiaryOfMonth(secretCode: string, now: DateLayout.CalendarDate)
      returns (r: Outcome<seq<DiaryEntry>>)
      ensures secretCode !in users ==> r == NotFound(NoSuchUser)
      ensures secretCode in users ==>
        var entries := users[secretCode].diaryEntries;
        && (r == ParseError <==> !AllDatesParse(entries))
        && (r != ParseError ==> r == Ok(EntriesInMonth(entries, now.year, now.month)))
      ensures Valid() ==> r != ParseError
    {
      if secretCode !in users {
        return NotFound(NoSuchUser);
      }
      var entries := users[secretCode].diaryEntries;
      var filtered := [];
      var i := 0;
      while i < |entries|
        invariant i <= |entries|
        invariant AllDatesParse(entries[..i])
        invariant filtered == EntriesInMonth(entries[..i], now.year, now.month)
      {
        var entry := entries[i];
        match DateLayout.Parse(entry.date)
        case None =>
          return ParseError;
        case Some(d) =>
          if d.month == now.month && d.year == now.year {
            filtered := filtered + [entry];
          }
        ghost var done := entries[..i + 1];
        assert done[..i] == entries[..i] && done[i] == entry;
        assert forall j :: 0 <= j < i ==> done[j] == entries[..i][j];
        i := i + 1;
      }
      assert entries[..i] == entries;
      return Ok(filtered);
    }

    /** addEntry: stamp the log, then append it to the first entry dated today,
        or start a new entry for today at the end of the list. */
    method AddEntry(secretCode: string, now: DateLayout.CalendarDate, title: string, content: string, stamps: Stamps)
      returns (r: Outcome<()>)
      requires DateLayout.IsValid(now)
      requires Valid()
      modifies this
      ensures Valid()
      ensures secretCode !in old(users) ==> r == NotFound(NoSuchUser) && users == old(users)
      ensures secretCode in old(users) ==>
        var user := old(users)[secretCode];
        var log := Log(stamps.logId, title, content, stamps.createAt);
        var entries := AddLog(user.diaryEntries, DateLayout.Format(now), log, stamps.appendedLogId, stamps.entryId);
        r == Ok(()) && users == old(users)[secretCode := user.(diaryEntries := entries)]
    {
      if secretCode !in users {
        return NotFound(NoSuchUser);
      }
      var user := users[secretCode];
      var today := DateLayout.Format(now);
      var log := Log(stamps.logId, title, content, stamps.createAt);
      var found := false;
      var i := 0;
      while i < |user.diaryEntries|
        invariant i <= |user.diaryEntries|
        invariant IndexOfDate(user.diaryEntries, today) >= i
        invariant !found && users == old(users)
      {
        var entry := user.diaryEntries[i];
        if entry.date == today {
          assert IndexOfDate(user.diaryEntries, today) == i;
          var appended := log.(id := stamps.appendedLogId);
          users := users[secretCode := user.(diaryEntries := user.diaryEntries[i := entry.(logs := entry.logs + [appended])])];
          found := true;
          break;
        }
        i := i + 1;
      }
      if !found {
        var entry := DiaryEntry(stamps.entryId, today, [log]);
        users := users[secretCode := user.(diaryEntries := user.diaryEntries + [entry])];
      }
      DateLayout.ParseOfFormat(now);
      AddLogKeepsValidEntries(user.diaryEntries, today, log, stamps.appendedLogId, stamps.entryId);
      ReplaceEntriesKeepsValid(old(users), secretCode, AddLog(user.diaryEntries, today, log, stamps.appendedLogId, stamps.entryId));
      return Ok(());
    }

    /** updateEntry: in the first entry dated today, overwrite the first log
        with the request's ID by the request's log. */
    method UpdateEntry(secretCode: string, now: DateLayout.CalendarDate, log: Log) returns (r: Outcome<()>)
      requires DateLayout.IsValid(now)
      requires Valid()
      modifies this
      ensures Valid()
      ensures secretCode !in old(users) ==> r == NotFound(NoSuchUser) && users == old(users)
      ensures secretCode in old(users) ==>
        var user := old(users)[secretCode];
        match UpdateLog(user.diaryEntries, DateLayout.Format(now), log)
        case None => r == NotFound(NoSuchLog) && users == old(users)
        case Some(entries) => r == Ok(()) && users == old(users)[secretCode := user.(diaryEntries := entries)]
    {
      if secretCode !in users {
        return NotFound(NoSuchUser);
      }
      var user := users[secretCode];
      var today := DateLayout.Format(now);
      var found := false;
      var i := 0;
      while i < |user.diaryEntries|
        invariant i <= |user.diaryEntries|
        invariant IndexOfDate(user.diaryEntries, today) >= i
        invariant !found && users == old(users)
      {
        var entry := user.diaryEntries[i];
        if entry.date == today {
          assert IndexOfDate(user.diaryEntries, today) == i;
          var j := 0;
          while j < |entry.logs|
            invariant j <= |entry.logs|
            invariant IndexOfLog(entry.logs, log.id) >= j
            invariant !found && users == old(users)
          {
            if entry.logs[j].id == log.id {
              assert IndexOfLog(entry.logs, log.id) == j;
              var entries := user.diaryEntries[i := entry.(logs := entry.logs[j := log])];
              assert UpdateLog(user.diaryEntries, today, log) == Some(entries);
              users := users[secretCode := user.(diaryEntries := entries)];
              found := true;
              break;
            }
            j := j + 1;
          }
          assert !found ==> UpdateLog(user.diaryEntries, today, log) == None;
          break;
        }
        i := i + 1;
      }
      if !found {
        assert UpdateLog(user.diaryEntries, today, log) == None;
        return NotFound(NoSuchLog);
      }
      UpdateLogKeeps(user.diaryEntries, today, log);
      ReplaceEntriesKeepsValid(old(users), secretCode, UpdateLog(user.diaryEntries, today, log).value);
      return Ok(());
    }

    /** deleteEntry: in the first entry dated today, cut out the first log with
        the given ID, keeping the others in order. */
    method DeleteEntry(secretCode: string, now: DateLayout.CalendarDate, id: string) returns (r: Outcome<()>)
      requires DateLayout.IsValid(now)
      requires Valid()
      modifies this
      ensures Valid()
      ensures secretCode !in old(users) ==> r == NotFound(NoSuchUser) && users == old(users)
      ensures secretCode in old(users) ==>
        var user := old(users)[secretCode];
        match DeleteLog(user.diaryEntries, DateLayout.Format(now), id)
        case None => r == NotFound(NoSuchLog) && users == old(users)
        case Some(entries) => r == Ok(()) && users == old(users)[secretCode := user.(diaryEntries := entries)]
    {
      if secretCode !in users {
        return NotFound(NoSuchUser);
      }
      var user := users[secretCode];
      var today := DateLayout.Format(now);
      var found := false;
      var i := 0;
      while i < |user.diaryEntries|
        invariant i <= |user.diaryEntries|
        invariant IndexOfDate(user.diaryEntries, today) >= i
        invariant !found && users == old(users)
      {
        var entry := user.diaryEntries[i];
        if entry.date == today {
          assert IndexOfDate(user.diaryEntries, today) == i;
          var j := 0;
          while j < |entry.logs|
            invariant j <= |entry.logs|
            invariant IndexOfLog(entry.logs, id) >= j
            invariant !found && users == old(users)
          {
            if entry.logs[j].id == id {
              assert IndexOfLog(entry.logs, id) == j;
              var entries := user.diaryEntries[i := entry.(logs := entry.logs[..j] + entry.logs[j + 1..])];
              assert DeleteLog(user.diaryEntries, today, id) == Some(entries);
              users := users[secretCode := user.(diaryEntries := entries)];
              found := true;
              break;
            }
            j := j + 1;
          }
          assert !found ==> DeleteLog(user.diaryEntries, today, id) == None;
          break;
        }
        i := i + 1;
      }
      if !found {
        assert DeleteLog(user.diaryEntries, today, id) == None;
        return NotFound(NoSuchLog);
      }
      DeleteLogKeeps(user.diaryEntries, today, id);
      ReplaceEntriesKeepsValid(old(users), secretCode, DeleteLog(user.diaryEntries, today, id).value);
      return Ok(());
    }

    /** showEntry: the logs of the first entry with the requested date, or no
        logs when the user has no entry for that date. */
    method ShowEntry(secretCode: string, date: string) returns (r: Outcome<seq<Log>>)
      ensures secretCode !in users ==> r == NotFound(NoSuchUser)
      ensures secretCode in users ==> r == Ok(LogsOn(users[secretCode].diaryEntries, date))
    {
      if secretCode !in users {
        return NotFound(NoSuchUser);
      }
      var entries := users[secretCode].diaryEntries;
      var logs := [];
      var i := 0;
      while i < |entries|
        invariant i <= |entries|
        invariant IndexOfDate(entries, date) >= i
        invariant logs == []
      {
        if entries[i].date == date {
          assert IndexOfDate(entries, date) == i;
          logs := entries[i].logs;
          break;
        }
        i := i + 1;
      }
      return Ok(logs);
    }
  }

  /** A session as a client sees it, using only the contracts above: register,
      log in, add a log today, read it back, delete it, and delete it again. */
  method ExampleSession(now: DateLayout.CalendarDate, stamps: Stamps)
    requires DateLayout.IsValid(now)
  {
    var store := new Store();
    var user := store.Register(17, 123, "A", "a@example.org", "1990-05-04");
    assert user.secretCode == "123";
    var login := store.Login("123");
    assert login == Ok(user);
    var stranger := store.Login("124");
    assert stranger == NotFound(NoSuchUser);

    var added := store.AddEntry("123", now, "t", "c", stamps);
    assert added == Ok(());
    var today := DateLayout.Format(now);
    var shown := store.ShowEntry("123", today);
    AddLogThenShow([], today, Log(stamps.logId, "t", "c", stamps.createAt), stamps.appendedLogId, stamps.entryId, today);
    assert shown == Ok([Log(stamps.logId, "t", "c", stamps.createAt)]);

    var entries := store.users["123"].diaryEntries;
    var deleted := store.DeleteEntry("123", now, stamps.logId);
    assert deleted == Ok(());
    DeleteLogTwice(entries, today, stamps.logId);
    var again := store.DeleteEntry("123", now, stamps.logId);
    assert again == NotFound(NoSuchLog);
  }

}
