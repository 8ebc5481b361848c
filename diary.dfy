/**
 * The diary data the store keeps for each user (main.go: Log, DiaryEntry,
 * User) and, as functions on values, what each handler does to a user's
 * ordered list of diary entries. The class in store.dfy performs the same
 * changes step by step and is proved equal to these functions.
 */
module Diary {
  import opened Options
  import DateLayout

  datatype Log = Log(id: string, title: string, content: string, createAt: string)

  datatype DiaryEntry = DiaryEntry(id: string, date: string, logs: seq<Log>)

  datatype User = User(
    id: string,
    secretCode: string,
    name: string,
    emailAddress: string,
    dateOfBirth: string,
    diaryEntries: seq<DiaryEntry>)

  /** What was not found, where the handlers answer 404. */
  datatype Missing = NoSuchUser | NoSuchLog

  /** A handler's result in place of its HTTP status: 200/201 with a value,
      404, or 500 for a stored date that does not parse. */
  datatype Outcome<T> = Ok(value: T) | NotFound(missing: Missing) | ParseError

  // ---------------------------------------------------------------------------
  // Searching: every handler scans from the front and stops at the first match.

  /** Position of the first entry dated `date`, or |entries| when there is none. */
  function IndexOfDate(entries: seq<DiaryEntry>, date: string): (k: nat)
    ensures k <= |entries|
    ensures k < |entries| ==> entries[k].date == date
    ensures forall j :: 0 <= j < k ==> entries[j].date != date
    decreases |entries|
  {
    if entries == [] then 0
    else if entries[0].date == date then 0
    else 1 + IndexOfDate(entries[1..], date)
  }

  /** Position of the first log with this ID, or |logs| when there is none. */
  function IndexOfLog(logs: seq<Log>, id: string): (k: nat)
    ensures k <= |logs|
    ensures k < |logs| ==> logs[k].id == id
    ensures forall j :: 0 <= j < k ==> logs[j].id != id
    decreases |logs|
  {
    if logs == [] then 0
    else if logs[0].id == id then 0
    else 1 + IndexOfLog(logs[1..], id)
  }

  /** The logs showEntry answers for `date`: those of the first entry with that
      date, or none. */
  function LogsOn(entries: seq<DiaryEntry>, date: string): (r: seq<Log>)
    ensures (forall k :: 0 <= k < |entries| ==> entries[k].date != date) ==> r == []
    ensures forall k :: 0 <= k < |entries| && entries[k].date == date ==>
              (forall j :: 0 <= j < k ==> entries[j].date != date) ==> r == entries[k].logs
  {
    var k := IndexOfDate(entries, date);
    if k < |entries| then entries[k].logs else []
  }

  /** Whether update and delete can find the log: only the first entry dated
      `today` is searched. */
  predicate HasLogToday(entries: seq<DiaryEntry>, today: string, id: string) {
    var k := IndexOfDate(entries, today);
    k < |entries| && exists j :: 0 <= j < |entries[k].logs| && entries[k].logs[j].id == id
  }

  // ---------------------------------------------------------------------------
  // Views used to state what the operations keep.

  function Dates(entries: seq<DiaryEntry>): seq<string> {
    seq(|entries|, i requires 0 <= i < |entries| => entries[i].date)
  }

  /** How many entries carry this date. */
  function DateCount(entries: seq<DiaryEntry>, date: string): nat {
    multiset(Dates(entries))[date]
  }

  /** Number of logs over all entries. */
  function TotalLogs(entries: seq<DiaryEntry>): nat
    decreases |entries|
  {
    if entries == [] then 0
    else TotalLogs(entries[..|entries| - 1]) + |entries[|entries| - 1].logs|
  }

  predicate DistinctDates(entries: seq<DiaryEntry>) {
    forall i, j :: 0 <= i < j < |entries| ==> entries[i].date != entries[j].date
  }

  predicate AllDatesParse(entries: seq<DiaryEntry>) {
    forall i {:trigger DateLayout.Parse(entries[i].date)} :: 0 <= i < |entries| ==> DateLayout.Parse(entries[i].date).Some?
  }

  /** What every user's entries satisfy when only the handlers have built them:
      one entry per date, and every date in the layout. */
  predicate ValidEntries(entries: seq<DiaryEntry>) {
    DistinctDates(entries) && AllDatesParse(entries)
  }

  predicate DistinctLogIds(logs: seq<Log>) {
    forall i, j :: 0 <= i < j < |logs| ==> logs[i].id != logs[j].id
  }

  // ---------------------------------------------------------------------------
  // addEntry

  /** addEntry on a user's entries: `log` carries the ID and time stamped before
      the search; when an entry dated `today` exists, the log goes to the end of
      the first such entry, re-stamped with `appendedId`; otherwise a new entry
      `entryId` holding just `log` goes to the end of the list. */
  function AddLog(entries: seq<DiaryEntry>, today: string, log: Log, appendedId: string, entryId: string)
    : (r: seq<DiaryEntry>)
    ensures |entries| <= |r| <= |entries| + 1
    ensures IndexOfDate(r, today) < |r|
    ensures forall j :: 0 <= j < |entries| && entries[j].date != today ==> r[j] == entries[j]
  {
    var k := IndexOfDate(entries, today);
    if k < |entries| then
      var r := entries[k := entries[k].(logs := entries[k].logs + [log.(id := appendedId)])];
      assert r[k].date == today;
      r
    else
      var r := entries + [DiaryEntry(entryId, today, [log])];
      assert r[|entries|].date == today;
      r
  }

  /** The log that AddLog stores. */
  function AddedLog(entries: seq<DiaryEntry>, today: string, log: Log, appendedId: string): Log {
    if IndexOfDate(entries, today) < |entries| then log.(id := appendedId) else log
  }

  lemma AddLogToTodaysEntry(entries: seq<DiaryEntry>, today: string, log: Log, appendedId: string, entryId: string)
    requires IndexOfDate(entries, today) < |entries|
    ensures var k := IndexOfDate(entries, today);
            var r := AddLog(entries, today, log, appendedId, entryId);
            && |r| == |entries|
            && r[k].id == entries[k].id && r[k].date == today
            && |r[k].logs| == |entries[k].logs| + 1
            && r[k].logs[..|entries[k].logs|] == entries[k].logs
            && r[k].logs[|entries[k].logs|] == log.(id := appendedId)
            && forall j :: 0 <= j < |r| && j != k ==> r[j] == entries[j]
  {
    var k := IndexOfDate(entries, today);
    var r := AddLog(entries, today, log, appendedId, entryId);
    assert r[k].logs == entries[k].logs + [log.(id := appendedId)];
  }

  lemma AddLogNewEntry(entries: seq<DiaryEntry>, today: string, log: Log, appendedId: string, entryId: string)
    requires IndexOfDate(entries, today) == |entries|
    ensures var r := AddLog(entries, today, log, appendedId, entryId);
            && |r| == |entries| + 1
            && r[..|entries|] == entries
            && r[|entries|] == DiaryEntry(entryId, today, [log])
            && DateCount(entries, today) == 0
  {
    assert today !in Dates(entries);
  }

  /** The update of one entry changes the log total by the difference in size. */
  lemma {:induction false} TotalLogsUpdate(entries: seq<DiaryEntry>, k: nat, e: DiaryEntry)
    requires k < |entries|
    ensures TotalLogs(entries[k := e]) == TotalLogs(entries) - |entries[k].logs| + |e.logs|
    decreases |entries|
  {
    var n := |entries| - 1;
    if k == n {
      assert entries[k := e][..n] == entries[..n];
    } else {
      assert entries[k := e][..n] == entries[..n][k := e];
      TotalLogsUpdate(entries[..n], k, e);
    }
  }

  lemma TotalLogsAppend(entries: seq<DiaryEntry>, e: DiaryEntry)
    ensures TotalLogs(entries + [e]) == TotalLogs(entries) + |e.logs|
  {
    assert (entries + [e])[..|entries|] == entries;
  }

  /** addEntry adds exactly one log to the user. */
  lemma AddLogTotal(entries: seq<DiaryEntry>, today: string, log: Log, appendedId: string, entryId: string)
    ensures TotalLogs(AddLog(entries, today, log, appendedId, entryId)) == TotalLogs(entries) + 1
  {
    var k := IndexOfDate(entries, today);
    if k < |entries| {
      TotalLogsUpdate(entries, k, entries[k].(logs := entries[k].logs + [log.(id := appendedId)]));
    } else {
      TotalLogsAppend(entries, DiaryEntry(entryId, today, [log]));
    }
  }

  /** addEntry adds an entry for `today` only when there was none: afterwards
      there is at least one, and at most one if there was at most one before;
      no other date gains or loses an entry. */
  lemma AddLogDateCount(entries: seq<DiaryEntry>, today: string, log: Log, appendedId: string, entryId: string, date: string)
    ensures var r := AddLog(entries, today, log, appendedId, entryId);
            && (date != today ==> DateCount(r, date) == DateCount(entries, date))
            && DateCount(r, today) >= 1
            && (DateCount(entries, today) <= 1 ==> DateCount(r, today) <= 1)
  {
    var k := IndexOfDate(entries, today);
    var r := AddLog(entries, today, log, appendedId, entryId);
    if k < |entries| {
      assert Dates(r) == Dates(entries);
      assert Dates(entries)[k] == today;
    } else {
      assert Dates(r) == Dates(entries) + [today];
      assert today !in Dates(entries);
    }
  }

  lemma AddLogKeepsValidEntries(entries: seq<DiaryEntry>, today: string, log: Log, appendedId: string, entryId: string)
    requires ValidEntries(entries)
    requires DateLayout.Parse(today).Some?
    ensures ValidEntries(AddLog(entries, today, log, appendedId, entryId))
  {
    var k := IndexOfDate(entries, today);
    var r := AddLog(entries, today, log, appendedId, entryId);
    if k < |entries| {
      assert forall i :: 0 <= i < |r| ==> r[i].date == entries[i].date;
    } else {
      assert forall i :: 0 <= i < |entries| ==> r[i] == entries[i];
      assert r[|entries|].date == today;
    }
  }

  /** After addEntry, showEntry for today answers what it answered before plus
      the new log at the end; for every other date it answers the same. */
  lemma AddLogThenShow(entries: seq<DiaryEntry>, today: string, log: Log, appendedId: string, entryId: string, date: string)
    ensures var r := AddLog(entries, today, log, appendedId, entryId);
            && LogsOn(r, today) == LogsOn(entries, today) + [AddedLog(entries, today, log, appendedId)]
            && (date != today ==> LogsOn(r, date) == LogsOn(entries, date))
  {
    var k := IndexOfDate(entries, today);
    var r := AddLog(entries, today, log, appendedId, entryId);
    if k < |entries| {
      IndexOfDateSameDates(entries, r, today);
      IndexOfDateSameDates(entries, r, date);
    } else {
      IndexOfDatePrefix(entries, r, today);
      IndexOfDatePrefix(entries, r, date);
      assert r[|entries|].date == today;
    }
  }

  /** The search for a date only looks at dates. */
  lemma IndexOfDateSameDates(a: seq<DiaryEntry>, b: seq<DiaryEntry>, date: string)
    requires |a| == |b|
    requires forall i :: 0 <= i < |a| ==> a[i].date == b[i].date
    ensures IndexOfDate(a, date) == IndexOfDate(b, date)
  {
  }

  /** Appending to a list does not move a date found in the original list. */
  lemma IndexOfDatePrefix(a: seq<DiaryEntry>, b: seq<DiaryEntry>, date: string)
    requires |a| <= |b| && b[..|a|] == a
    ensures IndexOfDate(a, date) < |a| ==> IndexOfDate(b, date) == IndexOfDate(a, date)
    ensures IndexOfDate(a, date) == |a| ==> IndexOfDate(b, date) >= |a|
  {
  }

  // ---------------------------------------------------------------------------
  // updateEntry

  /** updateEntry on a user's entries: in the first entry dated `today`, the first
      log whose ID is log.id is replaced by `log`, as given. None when there is
      no entry for today or no such log in it. */
  function UpdateLog(entries: seq<DiaryEntry>, today: string, log: Log): (r: Option<seq<DiaryEntry>>)
    ensures r.Some? <==> HasLogToday(entries, today, log.id)
    ensures r.Some? ==> |r.value| == |entries|
  {
    var k := IndexOfDate(entries, today);
    if k == |entries| then None
    else
      var j := IndexOfLog(entries[k].logs, log.id);
      if j == |entries[k].logs| then None
      else Some(entries[k := entries[k].(logs := entries[k].logs[j := log])])
  }

  lemma UpdateLogEffect(entries: seq<DiaryEntry>, today: string, log: Log)
    requires HasLogToday(entries, today, log.id)
    ensures var k := IndexOfDate(entries, today);
            var logs := entries[k].logs;
            var j := IndexOfLog(logs, log.id);
            var r := UpdateLog(entries, today, log);
            && r.Some? && |r.value| == |entries|
            && j < |logs| && logs[j].id == log.id
            && (forall i :: 0 <= i < j ==> logs[i].id != log.id)
            && r.value[k].id == entries[k].id && r.value[k].date == today
            && |r.value[k].logs| == |logs| && r.value[k].logs[j] == log
            && (forall i :: 0 <= i < |logs| && i != j ==> r.value[k].logs[i] == logs[i])
            && (forall i :: 0 <= i < |entries| && i != k ==> r.value[i] == entries[i])
  {
  }

  lemma UpdateLogKeeps(entries: seq<DiaryEntry>, today: string, log: Log)
    requires UpdateLog(entries, today, log).Some?
    ensures var r := UpdateLog(entries, today, log).value;
            && Dates(r) == Dates(entries)
            && TotalLogs(r) == TotalLogs(entries)
            && (ValidEntries(entries) ==> ValidEntries(r))
  {
    var k := IndexOfDate(entries, today);
    var r := UpdateLog(entries, today, log).value;
    TotalLogsUpdate(entries, k, r[k]);
  }

  /** After updateEntry, showEntry for today answers the same logs with the one
      at the updated position replaced. */
  lemma UpdateLogThenShow(entries: seq<DiaryEntry>, today: string, log: Log)
    requires UpdateLog(entries, today, log).Some?
    ensures var j := IndexOfLog(LogsOn(entries, today), log.id);
            LogsOn(UpdateLog(entries, today, log).value, today) == LogsOn(entries, today)[j := log]
  {
    IndexOfDateSameDates(entries, UpdateLog(entries, today, log).value, today);
  }

  // ---------------------------------------------------------------------------
  // deleteEntry

  /** deleteEntry on a user's entries: in the first entry dated `today`, the first
      log with this ID is cut out and the rest keep their order. None when there
      is no entry for today or no such log in it. */
  function DeleteLog(entries: seq<DiaryEntry>, today: string, id: string): (r: Option<seq<DiaryEntry>>)
    ensures r.Some? <==> HasLogToday(entries, today, id)
    ensures r.Some? ==> |r.value| == |entries|
  {
    var k := IndexOfDate(entries, today);
    if k == |entries| then None
    else
      var logs := entries[k].logs;
      var j := IndexOfLog(logs, id);
      if j == |logs| then None
      else Some(entries[k := entries[k].(logs := logs[..j] + logs[j + 1..])])
  }

  lemma DeleteLogEffect(entries: seq<DiaryEntry>, today: string, id: string)
    requires HasLogToday(entries, today, id)
    ensures var k := IndexOfDate(entries, today);
            var logs := entries[k].logs;
            var j := IndexOfLog(logs, id);
            var r := DeleteLog(entries, today, id);
            && r.Some? && |r.value| == |entries|
            && j < |logs| && logs[j].id == id
            && (forall i :: 0 <= i < j ==> logs[i].id != id)
            && r.value[k].id == entries[k].id && r.value[k].date == today
            && (forall i :: 0 <= i < |entries| && i != k ==> r.value[i] == entries[i])
  {
  }

  /** The logs left in today's entry are the old ones without the deleted one,
      in their old order. */
  lemma DeleteLogKeepsOrder(entries: seq<DiaryEntry>, today: string, id: string)
    requires HasLogToday(entries, today, id)
    ensures var k := IndexOfDate(entries, today);
            var logs := entries[k].logs;
            var j := IndexOfLog(logs, id);
            var rest := DeleteLog(entries, today, id).value[k].logs;
            && |rest| == |logs| - 1
            && (forall i :: 0 <= i < j ==> rest[i] == logs[i])
            && (forall i :: j <= i < |rest| ==> rest[i] == logs[i + 1])
            && multiset(rest) + multiset{logs[j]} == multiset(logs)
  {
    var k := IndexOfDate(entries, today);
    var logs := entries[k].logs;
    var j := IndexOfLog(logs, id);
    var rest := DeleteLog(entries, today, id).value[k].logs;
    assert rest == logs[..j] + logs[j + 1..];
    assert logs == logs[..j] + [logs[j]] + logs[j + 1..];
  }

  lemma DeleteLogKeeps(entries: seq<DiaryEntry>, today: string, id: string)
    requires DeleteLog(entries, today, id).Some?
    ensures var r := DeleteLog(entries, today, id).value;
            && Dates(r) == Dates(entries)
            && TotalLogs(r) == TotalLogs(entries) - 1
            && (ValidEntries(entries) ==> ValidEntries(r))
  {
    var k := IndexOfDate(entries, today);
    var r := DeleteLog(entries, today, id).value;
    TotalLogsUpdate(entries, k, r[k]);
  }

  /** Deleting the same ID twice: when IDs in today's entry are distinct, the
      second delete finds nothing. */
  lemma DeleteLogTwice(entries: seq<DiaryEntry>, today: string, id: string)
    requires DeleteLog(entries, today, id).Some?
    requires DistinctLogIds(entries[IndexOfDate(entries, today)].logs)
    ensures DeleteLog(DeleteLog(entries, today, id).value, today, id).None?
  {
    var k := IndexOfDate(entries, today);
    var logs := entries[k].logs;
    var j := IndexOfLog(logs, id);
    var r := DeleteLog(entries, today, id).value;
    IndexOfDateSameDates(entries, r, today);
    var rest := r[k].logs;
    assert rest == logs[..j] + logs[j + 1..];
    forall i | 0 <= i < |rest|
      ensures rest[i].id != id
    {
      if i < j {
        assert rest[i] == logs[i];
      } else {
        assert rest[i] == logs[i + 1];
      }
    }
  }

  // ---------------------------------------------------------------------------
  // showDiaryOfMonth

  /** Whether an entry's date parses to the given month of the given year. */
  predicate InMonth(entry: DiaryEntry, year: int, month: int) {
    match DateLayout.Parse(entry.date)
    case Some(d) => d.year == year && d.month == month
    case None => false
  }

  /** The entries of one month, in list order (EntriesInMonthInOrder, EntriesInMonthCounts). */
  function EntriesInMonth(entries: seq<DiaryEntry>, year: int, month: int): (r: seq<DiaryEntry>)
    ensures |r| <= |entries|
    decreases |entries|
  {
    if entries == [] then []
    else
      var rest := EntriesInMonth(entries[..|entries| - 1], year, month);
      var last := entries[|entries| - 1];
      if InMonth(last, year, month) then rest + [last] else rest
  }

  /** `a` is `b` with some elements left out, the rest in their order. */
  predicate IsSubsequence<T(==)>(a: seq<T>, b: seq<T>)
    decreases |b|
  {
    |a| <= |b| &&
    (a == []
     || (a[|a| - 1] == b[|b| - 1] && IsSubsequence(a[..|a| - 1], b[..|b| - 1]))
     || IsSubsequence(a, b[..|b| - 1]))
  }

  /** The month filter keeps its entries in their list order. */
  lemma {:induction false} EntriesInMonthInOrder(entries: seq<DiaryEntry>, year: int, month: int)
    ensures IsSubsequence(EntriesInMonth(entries, year, month), entries)
    decreases |entries|
  {
    if entries != [] {
      var init := entries[..|entries| - 1];
      var rest := EntriesInMonth(init, year, month);
      EntriesInMonthInOrder(init, year, month);
      var r := EntriesInMonth(entries, year, month);
      if InMonth(entries[|entries| - 1], year, month) {
        assert r[..|r| - 1] == rest;
      }
    }
  }

  /** The month filter keeps each entry of that month as many times as the list
      holds it, and nothing else. */
  lemma {:induction false} EntriesInMonthCounts(entries: seq<DiaryEntry>, year: int, month: int)
    ensures var r := EntriesInMonth(entries, year, month);
            forall e :: multiset(r)[e] == (if InMonth(e, year, month) then multiset(entries)[e] else 0)
    decreases |entries|
  {
    if entries != [] {
      var init := entries[..|entries| - 1];
      var last := entries[|entries| - 1];
      var rest := EntriesInMonth(init, year, month);
      EntriesInMonthCounts(init, year, month);
      var r := EntriesInMonth(entries, year, month);
      assert entries == init + [last];
      assert multiset(entries) == multiset(init) + multiset{last};
      if InMonth(last, year, month) {
        assert multiset(r) == multiset(rest) + multiset{last};
      } else {
        assert r == rest;
      }
    }
  }

}
