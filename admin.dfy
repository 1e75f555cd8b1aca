/**
 * The moderation handlers' bookkeeping: timed mutes (`mute_user`), the
 * automatic lift (`unmute_job`), re-arming after a restart
 * (`restore_mutes`), the manual lift (`unmute_user`) and the in-memory
 * warning counter (`warn_user`, `ban_user`, `check_warnings`).
 *
 * `Moderation` holds what these handlers change: the database `db`, the
 * job queue `jobs` (each `run_once` appends a job; when and how jobs fire is
 * left to the caller of `RunUnmuteJob`), the module-level `WARNINGS_DB` as
 * `warnings`, and `apiCalls`, the restriction calls made on the platform in
 * order.  Every platform call is an effect whose success is a parameter; the
 * clock is a parameter too.  Each handler receives the results of
 * `is_group_admin` and `get_target_user` (see module Group) as `isAdmin`
 * and `target`.
 */
module Admin {
  import opened Wrappers
  import opened Text
  import opened Duration
  import opened Database
  import opened Group

  /** `mute_user` accepts at most 30 days. */
  const MaxMuteSeconds: int := 30 * 86400

  /**
   * The name a job is registered under.  Unmute jobs are named
   * `unmute_{chat}_{user}`; the name is kept by its two numbers and `Text`
   * spells it out.
   */
  datatype JobName = UnmuteName(chat: int, user: int) {
    function Text(): (r: string)
      ensures |r| > |"unmute_"| && r[..|"unmute_"|] == "unmute_"
    {
      var r := "unmute_" + IntToString(chat) + "_" + IntToString(user);
      assert r[..|"unmute_"|] == "unmute_";
      r
    }
  }

  /** A job handed to `job_queue.run_once`: its name, its delay in seconds and its payload. */
  datatype Job = Job(name: JobName, delay: int, chatId: int, userId: int)

  /** The job that lifts the mute of `userId` in `chatId` after `delay` seconds, named `unmute_{chat}_{user}`. */
  function UnmuteJobFor(chatId: int, userId: int, delay: int): Job {
    Job(UnmuteName(chatId, userId), delay, chatId, userId)
  }

  /** The restriction calls (`restrict_chat_member`) the handlers make. */
  datatype ApiCall =
    | MuteCall(chatId: int, userId: int, untilDate: Option<int>)  // sending switched off, until a date or for good
    | UnmuteCall(chatId: int, userId: int)                        // sending switched back on
    | BanCall(chatId: int, userId: int)                           // every permission switched off

  datatype Warning = Warning(time: int, reason: string, adminId: int)

  /** A line of the warning history: its 1-based number, the reason and the warning admin. */
  datatype HistoryEntry = HistoryEntry(number: nat, reason: string, adminId: int)

  /** How `mute_user` reads its arguments: no duration, a rejected one, or a number of seconds. */
  datatype DurationCheck = Permanent | Invalid | TooLong | Timed(seconds: int)

  datatype MuteOutcome = MuteIgnored | InvalidDuration | DurationTooLong | Muted(duration: string) | MuteFailed

  datatype LiftOutcome = AutoUnmuted | LiftFailed

  datatype UnmuteOutcome = UnmuteIgnored | Unmuted | UnmuteFailed

  datatype BanOutcome = BanIgnored | Banned | BanFailed

  datatype WarnOutcome = WarnIgnored | Warned(count: nat) | AutoBanned(history: seq<HistoryEntry>) | AutoBanLookupFailed

  datatype WarningsReport = NoTarget | NoWarnings | History(total: nat, entries: seq<HistoryEntry>)

  /**
   * The duration gate of `mute_user`: a duration is read only when there is
   * more than one argument, from the last one, lower-cased; `None` or a
   * non-positive value is invalid, more than 30 days is too long.
   */
  function CheckDuration(args: seq<string>): (r: DurationCheck)
    ensures r.Permanent? <==> |args| <= 1
    ensures r.Invalid? <==> |args| > 1 && Parsed(LowerString(args[|args| - 1])).None?
    ensures r.TooLong? <==> |args| > 1 && Parsed(LowerString(args[|args| - 1])).Some? && Parsed(LowerString(args[|args| - 1])).value > MaxMuteSeconds
    ensures r.Timed? ==> 0 < r.seconds <= MaxMuteSeconds && Parsed(LowerString(args[|args| - 1])) == Some(r.seconds as nat)
  {
    if |args| <= 1 then Permanent
    else
      match Parsed(LowerString(args[|args| - 1]))
      case None => Invalid
      case Some(seconds) =>
        ParsedNoneCases(LowerString(args[|args| - 1]));
        if seconds <= 0 then Invalid
        else if seconds > MaxMuteSeconds then TooLong
        else Timed(seconds)
  }

  /** The text `mute_user` reports for an accepted timed mute reads back as the same number of seconds. */
  lemma TimedMuteReportRoundTrip(args: seq<string>)
    requires CheckDuration(args).Timed?
    ensures Parsed(FormatDuration(Some(CheckDuration(args).seconds))) == Some(CheckDuration(args).seconds as nat)
  {
    ParseFormatRoundTrip(CheckDuration(args).seconds);
  }

  /**
   * The reason `warn_user` and `ban_user` record: the arguments after the
   * target, each separated from the next by one space, or a fixed text when
   * there are none.
   */
  function WarnReason(args: seq<string>): (r: string)
    ensures |args| <= 1 ==> r == "No reason provided"
    ensures |args| == 2 ==> r == args[1]
    ensures |args| > 2 ==> r == args[1] + " " + Join(args[2..], " ")
  {
    if |args| > 1 then
      assert args[1..][1..] == args[2..];
      Join(args[1..], " ")
    else
      "No reason provided"
  }

  /** `enumerate(warnings)` numbered from `first`, as the history text lists them. */
  function NumberedFrom(ws: seq<Warning>, first: nat): (r: seq<HistoryEntry>)
    ensures |r| == |ws|
    ensures forall i :: 0 <= i < |ws| ==> r[i].number == first + i && r[i].reason == ws[i].reason && r[i].adminId == ws[i].adminId
  {
    if ws == [] then [] else [HistoryEntry(first, ws[0].reason, ws[0].adminId)] + NumberedFrom(ws[1..], first + 1)
  }

  function Numbered(ws: seq<Warning>): seq<HistoryEntry> {
    NumberedFrom(ws, 1)
  }

  /** The jobs `restore_mutes` adds for `rows`, in row order: one per row still in the future at `now`. */
  function RearmJobs(rows: seq<MuteRow>, now: int): seq<Job> {
    if rows == [] then []
    else
      var last := rows[|rows| - 1];
      var remaining := last.untilDate - now;
      RearmJobs(rows[..|rows| - 1], now) + (if remaining > 0 then [UnmuteJobFor(last.chatId, last.userId, remaining)] else [])
  }

  lemma DeleteOneMore(records: map<MemberKey, int>, gone: set<MemberKey>, key: MemberKey)
    ensures records - (gone + {key}) == records - gone - {key}
  {
  }

  /** The records `restore_mutes` deletes: those of rows no longer in the future at `now`. */
  function ExpiredKeys(rows: seq<MuteRow>, now: int): set<MemberKey> {
    set r | r in rows && r.untilDate - now <= 0 :: r.Key()
  }

  /** The member a job's payload names. */
  function JobKey(j: Job): MemberKey {
    MemberKey(j.chatId, j.userId)
  }

  lemma RearmJobsSnoc(rows: seq<MuteRow>, row: MuteRow, now: int)
    ensures RearmJobs(rows + [row], now) ==
      RearmJobs(rows, now) + (if row.untilDate - now > 0 then [UnmuteJobFor(row.chatId, row.userId, row.untilDate - now)] else [])
  {
    assert (rows + [row])[..|rows|] == rows;
  }

  lemma ExpiredKeysSnoc(rows: seq<MuteRow>, row: MuteRow, now: int)
    ensures ExpiredKeys(rows + [row], now) == ExpiredKeys(rows, now) + (if row.untilDate - now <= 0 then {row.Key()} else {})
  {
  }

  /** Each re-armed job has a positive delay, the remaining time of some listed row, and carries that row's chat and user. */
  lemma {:induction false} RearmJobsSound(rows: seq<MuteRow>, now: int)
    ensures forall j :: j in RearmJobs(rows, now) ==>
      j.delay > 0 && exists r :: r in rows && j == UnmuteJobFor(r.chatId, r.userId, r.untilDate - now)
  {
    if rows != [] {
      var init := rows[..|rows| - 1];
      RearmJobsSound(init, now);
      assert forall r :: r in init ==> r in rows;
    }
  }

  /** Every listed row still in the future at `now` gets its job. */
  lemma {:induction false} RearmJobsComplete(rows: seq<MuteRow>, now: int)
    ensures forall r :: r in rows && r.untilDate > now ==> UnmuteJobFor(r.chatId, r.userId, r.untilDate - now) in RearmJobs(rows, now)
  {
    if rows != [] {
      var init, last := rows[..|rows| - 1], rows[|rows| - 1];
      RearmJobsComplete(init, now);
      assert rows == init + [last];
      forall r | r in rows && r.untilDate > now
        ensures UnmuteJobFor(r.chatId, r.userId, r.untilDate - now) in RearmJobs(rows, now)
      {
        if r != last {
          assert r in init;
        }
      }
    }
  }

  /** The members the rows name. */
  function RowKeys(rows: seq<MuteRow>): set<MemberKey> {
    set r | r in rows :: r.Key()
  }

  lemma {:induction false} RearmJobsKeys(rows: seq<MuteRow>, now: int)
    ensures forall j :: j in RearmJobs(rows, now) ==> JobKey(j) in RowKeys(rows)
  {
    if rows != [] {
      var init, last := rows[..|rows| - 1], rows[|rows| - 1];
      RearmJobsKeys(init, now);
      assert rows == init + [last];
      assert RowKeys(rows) == RowKeys(init) + {last.Key()};
    }
  }

  /** No two jobs name the same member. */
  predicate DistinctJobKeys(jobs: seq<Job>) {
    forall i, k :: 0 <= i < k < |jobs| ==> JobKey(jobs[i]) != JobKey(jobs[k])
  }

  lemma AppendFreshKey(front: seq<Job>, tail: seq<Job>, key: MemberKey)
    requires DistinctJobKeys(front) && |tail| <= 1
    requires forall j :: j in front ==> JobKey(j) != key
    requires forall j :: j in tail ==> JobKey(j) == key
    ensures DistinctJobKeys(front + tail)
  {
    var jobs := front + tail;
    forall i, k | 0 <= i < k < |jobs|
      ensures JobKey(jobs[i]) != JobKey(jobs[k])
    {
      assert jobs[i] == front[i] && front[i] in front;
      if k < |front| {
        assert jobs[k] == front[k];
      } else {
        assert jobs[k] == tail[k - |front|] && jobs[k] in tail;
      }
    }
  }

  /** Rows with distinct keys get jobs with distinct payloads: no member is re-armed twice. */
  lemma {:induction false} RearmJobsDistinct(rows: seq<MuteRow>, now: int)
    requires DistinctKeys(rows)
    ensures DistinctJobKeys(RearmJobs(rows, now))
  {
    if rows != [] {
      var init, last := rows[..|rows| - 1], rows[|rows| - 1];
      assert DistinctKeys(init);
      RearmJobsDistinct(init, now);
      RearmJobsKeys(init, now);
      assert last.Key() !in RowKeys(init) by {
        forall r | r in init
          ensures r.Key() != last.Key()
        {
          var idx :| 0 <= idx < |init| && init[idx] == r;
          assert rows[idx] == r;
        }
      }
      var tail := if last.untilDate - now > 0 then [UnmuteJobFor(last.chatId, last.userId, last.untilDate - now)] else [];
      AppendFreshKey(RearmJobs(init, now), tail, last.Key());
    }
  }

  /** With distinct keys, a listed row's key is expired exactly when that row is. */
  lemma ExpiredKeysOfRow(rows: seq<MuteRow>, now: int, r: MuteRow)
    requires DistinctKeys(rows) && r in rows
    ensures r.Key() in ExpiredKeys(rows, now) <==> r.untilDate <= now
  {
    if r.Key() in ExpiredKeys(rows, now) {
      var r' :| r' in rows && r'.untilDate - now <= 0 && r'.Key() == r.Key();
      var i :| 0 <= i < |rows| && rows[i] == r;
      var k :| 0 <= k < |rows| && rows[k] == r';
      assert i == k;
    }
  }

  /**
   * `restore_mutes` sorts each listed row into exactly one branch: a row
   * still in the future is re-armed and kept, any other row is deleted.
   */
  lemma RestorePartition(rows: seq<MuteRow>, now: int)
    requires DistinctKeys(rows)
    ensures forall r :: r in rows ==>
      (r.untilDate > now <==> UnmuteJobFor(r.chatId, r.userId, r.untilDate - now) in RearmJobs(rows, now)) &&
      (r.untilDate > now <==> r.Key() !in ExpiredKeys(rows, now))
  {
    RearmJobsSound(rows, now);
    RearmJobsComplete(rows, now);
    forall r | r in rows
      ensures r.untilDate > now <==> r.Key() !in ExpiredKeys(rows, now)
    {
      ExpiredKeysOfRow(rows, now, r);
    }
  }

  /** One turn of the `restore_mutes` loop on the jobs: row `i` adds its job exactly when it has time left. */
  lemma RearmStep(rows: seq<MuteRow>, i: nat, now: int)
    requires i < |rows|
    ensures RearmJobs(rows[..i + 1], now) == RearmJobs(rows[..i], now) +
      (if rows[i].untilDate - now > 0 then [UnmuteJobFor(rows[i].chatId, rows[i].userId, rows[i].untilDate - now)] else [])
  {
    assert rows[..i + 1] == rows[..i] + [rows[i]];
    RearmJobsSnoc(rows[..i], rows[i], now);
  }

  /** One turn of the `restore_mutes` loop on the records: row `i` is deleted exactly when it has no time left. */
  lemma ExpireStep(rows: seq<MuteRow>, i: nat, now: int, records: map<MemberKey, int>)
    requires i < |rows|
    ensures rows[i].untilDate - now > 0 ==> records - ExpiredKeys(rows[..i + 1], now) == records - ExpiredKeys(rows[..i], now)
    ensures rows[i].untilDate - now <= 0 ==> records - ExpiredKeys(rows[..i + 1], now) == records - ExpiredKeys(rows[..i], now) - {rows[i].Key()}
  {
    assert rows[..i + 1] == rows[..i] + [rows[i]];
    ExpiredKeysSnoc(rows[..i], rows[i], now);
    DeleteOneMore(records, ExpiredKeys(rows[..i], now), rows[i].Key());
  }

  /**
   * Rows are listed with `until_date > queryNow` and the deletion branch
   * needs `until_date <= now`: a row that had already expired at the query
   * is never deleted, and when both clock readings agree nothing is.
   */
  lemma RestoreKeepsStaleRows(rows: seq<MuteRow>, records: map<MemberKey, int>, queryNow: int, now: int)
    requires ListsActive(rows, records, queryNow)
    ensures forall k :: k in records && records[k] <= queryNow ==> k !in ExpiredKeys(rows, now)
    ensures queryNow == now ==> ExpiredKeys(rows, now) == {}
  {
  }

  class Moderation {
    const db: Store
    var jobs: seq<Job>
    var warnings: map<int, seq<Warning>>
    var apiCalls: seq<ApiCall>

    constructor (db: Store)
      ensures this.db == db && jobs == [] && warnings == map[] && apiCalls == []
    {
      this.db := db;
      jobs, warnings, apiCalls := [], map[], [];
    }

    /** Every member has at most two stored warnings. */
    ghost predicate WarningsBounded()
      reads this
    {
      forall u :: u in warnings ==> |warnings[u]| <= 2
    }

    /**
     * `mute_user`.  A timed mute upserts the record `now + seconds` before the
     * restriction is attempted, so it stays even when the restriction fails;
     * the unmute job is appended only after the restriction succeeds, and
     * earlier jobs for the same member are left in place.  A permanent mute
     * writes no record and schedules nothing.
     */
    method MuteUser(chatId: int, isAdmin: bool, target: Option<User>, args: seq<string>, now: nat, restrictOk: bool)
      returns (outcome: MuteOutcome)
      modifies this`jobs, this`apiCalls, db`muteRecords
      ensures !isAdmin || target.None? ==>
        outcome == MuteIgnored && jobs == old(jobs) && apiCalls == old(apiCalls) && db.muteRecords == old(db.muteRecords)
      ensures isAdmin && target.Some? && (CheckDuration(args).Invalid? || CheckDuration(args).TooLong?) ==>
        outcome == (if CheckDuration(args).Invalid? then InvalidDuration else DurationTooLong) &&
        jobs == old(jobs) && apiCalls == old(apiCalls) && db.muteRecords == old(db.muteRecords)
      ensures isAdmin && target.Some? && CheckDuration(args).Permanent? ==>
        db.muteRecords == old(db.muteRecords) && jobs == old(jobs) &&
        apiCalls == old(apiCalls) + [MuteCall(chatId, target.value.id, None)] &&
        outcome == (if restrictOk then Muted("permanently") else MuteFailed)
      ensures isAdmin && target.Some? && CheckDuration(args).Timed? ==>
        var seconds := CheckDuration(args).seconds;
        db.muteRecords == old(db.muteRecords)[MemberKey(chatId, target.value.id) := now + seconds] &&
        apiCalls == old(apiCalls) + [MuteCall(chatId, target.value.id, Some(now + seconds))] &&
        jobs == old(jobs) + (if restrictOk then [UnmuteJobFor(chatId, target.value.id, seconds)] else []) &&
        outcome == (if restrictOk then Muted(FormatDuration(Some(seconds))) else MuteFailed)
    {
      if !isAdmin || target.None? {
        return MuteIgnored;
      }
      var userId := target.value.id;
      var untilDate: Option<int> := None;
      var durationStr := "permanently";
      var seconds := 0;
      if |args| > 1 {
        var timeStr := args[|args| - 1];
        var parsed := ParseDuration(LowerString(timeStr));
        if parsed.None? || parsed.value <= 0 {
          return InvalidDuration;
        }
        if parsed.value > 30 * 86400 {
          return DurationTooLong;
        }
        seconds := parsed.value;
        untilDate := Some(now + seconds);
        durationStr := FormatDuration(Some(seconds));
        db.AddMuteRecord(chatId, userId, now + seconds);
      }
      apiCalls := apiCalls + [MuteCall(chatId, userId, untilDate)];
      if !restrictOk {
        return MuteFailed;
      }
      outcome := Muted(durationStr);
      if untilDate.Some? && untilDate.value != 0 {
        jobs := jobs + [UnmuteJobFor(chatId, userId, seconds)];
      }
    }

    /**
     * `unmute_job`: the record is deleted first, then the lift is attempted;
     * a failed lift is only logged, so the record is gone either way.
     */
    method RunUnmuteJob(job: Job, liftOk: bool) returns (outcome: LiftOutcome)
      modifies this`apiCalls, db`muteRecords
      ensures db.muteRecords == old(db.muteRecords) - {MemberKey(job.chatId, job.userId)}
      ensures apiCalls == old(apiCalls) + [UnmuteCall(job.chatId, job.userId)]
      ensures outcome == if liftOk then AutoUnmuted else LiftFailed
    {
      db.RemoveMuteRecord(job.chatId, job.userId);
      apiCalls := apiCalls + [UnmuteCall(job.chatId, job.userId)];
      if liftOk {
        outcome := AutoUnmuted;
      } else {
        outcome := LiftFailed;
      }
    }

    /**
     * `restore_mutes`: list the rows later than `queryNow` (the integer clock
     * `get_active_mutes` reads), then, at the later reading `now`, re-arm each
     * row with time left and delete each row without.
     */
    method RestoreMutes(queryNow: int, now: int) returns (restored: seq<MuteRow>)
      modifies this`jobs, db`muteRecords
      ensures ListsActive(restored, old(db.muteRecords), queryNow)
      ensures jobs == old(jobs) + RearmJobs(restored, now)
      ensures db.muteRecords == old(db.muteRecords) - ExpiredKeys(restored, now)
    {
      restored := db.GetActiveMutes(queryNow);
      ghost var records := db.muteRecords;
      for i := 0 to |restored|
        invariant jobs == old(jobs) + RearmJobs(restored[..i], now)
        invariant db.muteRecords == records - ExpiredKeys(restored[..i], now)
      {
        var row := restored[i];
        RearmStep(restored, i, now);
        ExpireStep(restored, i, now, records);
        var remaining := row.untilDate - now;
        if remaining > 0 {
          jobs := jobs + [UnmuteJobFor(row.chatId, row.userId, remaining)];
        } else {
          db.RemoveMuteRecord(row.chatId, row.userId);
        }
      }
      assert restored[..|restored|] == restored;
    }

    /** `unmute_user`: lifts the restriction and leaves the mute records and pending jobs alone. */
    method UnmuteUser(chatId: int, isAdmin: bool, target: Option<User>, liftOk: bool) returns (outcome: UnmuteOutcome)
      modifies this`apiCalls
      ensures db.muteRecords == old(db.muteRecords) && jobs == old(jobs)
      ensures !isAdmin || target.None? ==> outcome == UnmuteIgnored && apiCalls == old(apiCalls)
      ensures isAdmin && target.Some? ==>
        apiCalls == old(apiCalls) + [UnmuteCall(chatId, target.value.id)] &&
        outcome == if liftOk then Unmuted else UnmuteFailed
    {
      if !isAdmin || target.None? {
        return UnmuteIgnored;
      }
      apiCalls := apiCalls + [UnmuteCall(chatId, target.value.id)];
      outcome := if liftOk then Unmuted else UnmuteFailed;
    }

    /** `ban_user`: restrict everything; only when that succeeds are the member's warnings cleared. */
    method BanUser(chatId: int, isAdmin: bool, target: Option<User>, restrictOk: bool) returns (outcome: BanOutcome)
      modifies this`warnings, this`apiCalls
      ensures !isAdmin || target.None? ==> outcome == BanIgnored && warnings == old(warnings) && apiCalls == old(apiCalls)
      ensures isAdmin && target.Some? ==>
        apiCalls == old(apiCalls) + [BanCall(chatId, target.value.id)] &&
        (restrictOk ==> outcome == Banned && warnings == old(warnings) - {target.value.id}) &&
        (!restrictOk ==> outcome == BanFailed && warnings == old(warnings))
      ensures old(WarningsBounded()) ==> WarningsBounded()
    {
      if !isAdmin || target.None? {
        return BanIgnored;
      }
      apiCalls := apiCalls + [BanCall(chatId, target.value.id)];
      if !restrictOk {
        return BanFailed;
      }
      if target.value.id in warnings {
        warnings := warnings - {target.value.id};
      }
      outcome := Banned;
    }

    /**
     * `warn_user`: append one warning under the member's id (shared by every
     * chat).  Below three it reports the count.  At three it calls `ban_user`:
     * when the ban succeeds, `ban_user` has already removed the entry and
     * reading the history fails; when it fails, the history is reported and
     * the entry removed.  Either way the member has no entry afterwards.
     */
    method WarnUser(chatId: int, isAdmin: bool, target: Option<User>, adminId: int, args: seq<string>, now: int, banOk: bool)
      returns (outcome: WarnOutcome)
      modifies this`warnings, this`apiCalls
      ensures !isAdmin || target.None? ==> outcome == WarnIgnored && warnings == old(warnings) && apiCalls == old(apiCalls)
      ensures isAdmin && target.Some? ==>
        var userId := target.value.id;
        var after := (if userId in old(warnings) then old(warnings)[userId] else []) + [Warning(now, WarnReason(args), adminId)];
        (|after| < 3 ==>
          outcome == Warned(|after|) && warnings == old(warnings)[userId := after] && apiCalls == old(apiCalls)) &&
        (|after| >= 3 ==>
          outcome == (if banOk then AutoBanLookupFailed else AutoBanned(Numbered(after))) &&
          warnings == old(warnings) - {userId} &&
          apiCalls == old(apiCalls) + [BanCall(chatId, userId)])
      ensures old(WarningsBounded()) ==> WarningsBounded()
    {
      if !isAdmin || target.None? {
        return WarnIgnored;
      }
      var userId := target.value.id;
      var reason := WarnReason(args);
      if userId !in warnings {
        warnings := warnings[userId := []];
      }
      warnings := warnings[userId := warnings[userId] + [Warning(now, reason, adminId)]];
      var warningCount := |warnings[userId]|;
      if warningCount >= 3 {
        var banned := BanUser(chatId, isAdmin, target, banOk);
        if userId !in warnings {
          // `WARNINGS_DB[target.id]` raises: the ban already removed the entry.
          return AutoBanLookupFailed;
        }
        var history := Numbered(warnings[userId]);
        warnings := warnings - {userId};
        return AutoBanned(history);
      }
      return Warned(warningCount);
    }

    /** `check_warnings`: the member's warnings numbered 1..k in the order they were given. */
    function CheckWarnings(target: Option<User>): (r: WarningsReport)
      reads this
      ensures target.None? ==> r == NoTarget
      ensures target.Some? && !r.History? ==> r == NoWarnings
      ensures target.Some? ==> (r.History? <==> target.value.id in warnings && warnings[target.value.id] != [])
      ensures r.History? ==> (target.Some? &&
        var ws := warnings[target.value.id];
        r.total == |ws| && |r.entries| == |ws| &&
        forall i :: 0 <= i < |ws| ==> r.entries[i] == HistoryEntry(i + 1, ws[i].reason, ws[i].adminId))
    {
      if target.None? then NoTarget
      else if target.value.id !in warnings || warnings[target.value.id] == [] then NoWarnings
      else
        var ws := warnings[target.value.id];
        History(|ws|, Numbered(ws))
    }
  }

  /**
   * Two timed mutes of one member ("5m", then "2h") leave two jobs under the
   * same name, the first not cancelled.  When the first fires it deletes the
   * record of the two-hour mute and lifts the mute early: the store then
   * holds no mute record although the two-hour one has not run out.
   */
  method RepeatedMuteScenario(chatId: int, member: User, now: nat)
    returns (pending: seq<Job>, recordsAfterFirstLift: map<MemberKey, int>, lastCall: ApiCall)
    ensures |pending| == 2 && pending[0].name == pending[1].name && pending[0].name.Text() == "unmute_" + IntToString(chatId) + "_" + IntToString(member.id)
    ensures pending[0].delay == 300 && pending[1].delay == 7200
    ensures recordsAfterFirstLift == map[]
    ensures lastCall == UnmuteCall(chatId, member.id)
  {
    var db := new Store();
    var bot := new Moderation(db);
    ParseFiveMinutes();
    ParseTwoHours();
    assert CheckDuration(["@someone", "5m"]) == Timed(300);
    assert CheckDuration(["@someone", "2h"]) == Timed(7200);
    var first := bot.MuteUser(chatId, true, Some(member), ["@someone", "5m"], now, true);
    var second := bot.MuteUser(chatId, true, Some(member), ["@someone", "2h"], now, true);
    pending := bot.jobs;
    assert db.muteRecords[MemberKey(chatId, member.id)] == now + 7200;
    var lifted := bot.RunUnmuteJob(pending[0], true);
    recordsAfterFirstLift := db.muteRecords;
    lastCall := bot.apiCalls[|bot.apiCalls| - 1];
  }

  /**
   * Three warnings for one member, the second in another chat: the counter is
   * shared, the third triggers the ban, and with the ban succeeding the
   * history lookup fails; no warnings remain.
   */
  method ThirdWarningScenario(chatA: int, chatB: int, admin: int, member: User, now: int)
    returns (outcomes: seq<WarnOutcome>, remaining: WarningsReport)
    ensures outcomes == [Warned(1), Warned(2), AutoBanLookupFailed]
    ensures remaining == NoWarnings
  {
    var db := new Store();
    var bot := new Moderation(db);
    var o1 := bot.WarnUser(chatA, true, Some(member), admin, ["@someone", "spam"], now, true);
    var o2 := bot.WarnUser(chatB, true, Some(member), admin, ["@someone"], now, true);
    var o3 := bot.WarnUser(chatA, true, Some(member), admin, ["@someone", "again"], now, true);
    outcomes := [o1, o2, o3];
    remaining := bot.CheckWarnings(Some(member));
  }
}
