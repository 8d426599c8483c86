/** The table of scheduled animations kept by the application object of
    both generations: loaded from the configuration in saved order, appended
    to when an animation is scheduled, and edited by job id. The cron
    scheduler itself is not modelled; what is saved to the configuration is
    recorded as the table at the last save. */
module Schedule {
  import opened Wrappers

  /** `CronStructure`: year, month, day, week, day_of_week, hour, minute,
      second, each an optional expression. */
  datatype Cron = Cron(fields: seq<Option<string>>)

  /** `ScheduleEntry`. The legacy entry keeps the animation name inside its
      settings; here both generations carry it next to them. */
  datatype Entry = Entry(jobId: Option<string>, cron: Cron, animation: string, settings: string)

  /** The index of the first entry with the job id, if any. */
  function FindJob(table: seq<Entry>, id: string): (r: Option<nat>)
    ensures r.None? <==> forall k :: 0 <= k < |table| ==> table[k].jobId != Some(id)
    ensures r.Some? ==> r.value < |table| && table[r.value].jobId == Some(id)
    ensures r.Some? ==> forall k :: 0 <= k < r.value ==> table[k].jobId != Some(id)
  {
    if table == [] then None
    else if table[0].jobId == Some(id) then Some(0)
    else
      match FindJob(table[1..], id)
      case None => None
      case Some(i) => Some(i + 1)
  }

  // ------------------------------------------------------------ messages

  /** Python's `fmt % arg` for one string argument: `%s` takes the
      argument, `%%` is a percent sign; a `%` followed by any other
      character (flags, width and precision are not modelled) or at the end
      raises ValueError; an unused or missing argument raises TypeError. */
  function PercentFormat(fmt: string, arg: string, used: bool): Result<string>
    decreases |fmt|
  {
    if fmt == [] then (if used then Ok([]) else Err(TypeError))
    else if fmt[0] != '%' then
      match PercentFormat(fmt[1..], arg, used)
      case Ok(rest) => Ok([fmt[0]] + rest)
      case Err(e) => Err(e)
    else if |fmt| == 1 then Err(ValueError)
    else if fmt[1] == '%' then
      match PercentFormat(fmt[2..], arg, used)
      case Ok(rest) => Ok("%" + rest)
      case Err(e) => Err(e)
    else if fmt[1] == 's' then
      if used then Err(TypeError)
      else
        match PercentFormat(fmt[2..], arg, true)
        case Ok(rest) => Ok(arg + rest)
        case Err(e) => Err(e)
    else Err(ValueError)
  }

  /** A format without any `%` in a prefix is copied up to there. */
  lemma {:induction false} FormatSkipsPlain(pre: string, fmt: string, arg: string, used: bool)
    requires forall k :: 0 <= k < |pre| ==> pre[k] != '%'
    ensures PercentFormat(pre + fmt, arg, used) ==
      match PercentFormat(fmt, arg, used)
      case Ok(rest) => Ok(pre + rest)
      case Err(e) => Err(e)
    decreases |pre|
  {
    if pre == [] {
      assert pre + fmt == fmt;
      match PercentFormat(fmt, arg, used) {
        case Ok(rest) => assert pre + rest == rest;
        case Err(e) =>
      }
    } else {
      assert (pre + fmt)[0] == pre[0] && (pre + fmt)[1..] == pre[1..] + fmt;
      FormatSkipsPlain(pre[1..], fmt, arg, used);
      match PercentFormat(fmt, arg, used) {
        case Ok(rest) => assert [pre[0]] + (pre[1..] + rest) == pre + rest;
        case Err(e) =>
      }
    }
  }

  const NotFoundPrefix := "No scheduled animation with ID '"
  /** The legacy warning `"No scheduled animation with ID '%' found!"`. */
  const LegacyNotFound := NotFoundPrefix + "%' found!"
  /** The same message with the conversion the rewrite uses. */
  const NotFound := NotFoundPrefix + "%s' found!"

  /** The legacy message cannot be formatted: `%'` is no conversion, so
      building the warning raises ValueError for every id; with `%s` it is
      the id in quotes. */
  lemma NotFoundMessage(id: string)
    ensures PercentFormat(LegacyNotFound, id, false) == Err(ValueError)
    ensures PercentFormat(NotFound, id, false) == Ok(NotFoundPrefix + id + "' found!")
  {
    var pre := NotFoundPrefix;
    FormatSkipsPlain(pre, "%' found!", id, false);
    FormatSkipsPlain(pre, "%s' found!", id, false);
    BadConversion(id);
    TailAfterConversion(id);
    assert pre + (id + "' found!") == NotFoundPrefix + id + "' found!";
  }

  lemma BadConversion(id: string)
    ensures PercentFormat("%' found!", id, false) == Err(ValueError)
  {
    var f := "%' found!";
    assert f[0] == '%' && f[1] == '\'';
  }

  lemma TailAfterConversion(id: string)
    ensures PercentFormat("%s' found!", id, false) == Ok(id + "' found!")
  {
    var f := "%s' found!";
    assert f[0] == '%' && f[1] == 's' && f[2..] == "' found!";
    FormatSkipsPlain("' found!", [], id, true);
    assert "' found!" + [] == "' found!";
  }

  // ------------------------------------------------------------ the table

  class ScheduleTable {
    /** True for the legacy application, whose not-found warning raises. */
    const legacy: bool
    /** `__schedule_table`. */
    var table: seq<Entry>
    /** The table as last written to the configuration. */
    var saved: seq<Entry>

    /** `__create_scheduler` (rewrite) / the table load (legacy): the saved
        entries are appended in their order. */
    constructor (legacy: bool, savedJobs: seq<Entry>, stored: seq<Entry>)
      ensures this.legacy == legacy && table == savedJobs && saved == stored
    {
      var loaded := [];
      var k := 0;
      while k < |savedJobs|
        invariant 0 <= k <= |savedJobs| && loaded == savedJobs[..k]
      {
        loaded := loaded + [savedJobs[k]];
        k := k + 1;
      }
      assert savedJobs[..k] == savedJobs;
      this.legacy, table, saved := legacy, loaded, stored;
    }

    /** `schedule_animation`: the entry gets the new job id, is appended at
        the end and the table is saved. */
    method ScheduleAnimation(entry: Entry, newId: string)
      modifies this
      ensures table == old(table) + [entry.(jobId := Some(newId))] && saved == table
    {
      table := table + [entry.(jobId := Some(newId))];
      saved := table;
    }

    /** `remove_scheduled_animation`: the first entry with the id is
        deleted and the table saved. With no such entry the table is neither
        changed nor saved; the rewrite logs a warning, the legacy code raises
        ValueError building its message. */
    method RemoveScheduledAnimation(id: string) returns (error: Option<PyError>)
      modifies this
      ensures FindJob(old(table), id).None? ==>
        table == old(table) && saved == old(saved)
        && error == (if legacy then Some(ValueError) else None)
      ensures FindJob(old(table), id).Some? ==>
        var i := FindJob(old(table), id).value;
        table == old(table)[..i] + old(table)[i + 1..] && saved == table && error.None?
    {
      var found := false;
      var i := 0;
      while i < |table|
        invariant 0 <= i <= |table| && table == old(table) && !found
        invariant forall k :: 0 <= k < i ==> table[k].jobId != Some(id)
      {
        if table[i].jobId == Some(id) {
          found := true;
          table := table[..i] + table[i + 1..];
          break;
        }
        i := i + 1;
      }
      if !found {
        error := WarnNotFound(id);
      } else {
        saved := table;
        error := None;
      }
    }

    /** `modify_scheduled_animation`: the first entry with the new entry's
        job id is replaced in place and the table saved; otherwise as for
        removal. */
    method ModifyScheduledAnimation(entry: Entry) returns (error: Option<PyError>)
      requires entry.jobId.Some?
      modifies this
      ensures FindJob(old(table), entry.jobId.value).None? ==>
        table == old(table) && saved == old(saved)
        && error == (if legacy then Some(ValueError) else None)
      ensures FindJob(old(table), entry.jobId.value).Some? ==>
        table == old(table)[FindJob(old(table), entry.jobId.value).value := entry]
        && saved == table && error.None?
    {
      var found := false;
      var i := 0;
      while i < |table|
        invariant 0 <= i <= |table| && table == old(table) && !found
        invariant forall k :: 0 <= k < i ==> table[k].jobId != entry.jobId
      {
        if table[i].jobId == entry.jobId {
          found := true;
          table := table[i := entry];
          break;
        }
        i := i + 1;
      }
      if !found {
        error := WarnNotFound(entry.jobId.value);
      } else {
        saved := table;
        error := None;
      }
    }

    /** The not-found warning: the legacy message fails to format. */
    method WarnNotFound(id: string) returns (error: Option<PyError>)
      ensures error == if legacy then Some(ValueError) else None
    {
      NotFoundMessage(id);
      var message := PercentFormat(if legacy then LegacyNotFound else NotFound, id, false);
      error := if message.Err? then Some(message.error) else None;
    }
  }

  /** Removing a job keeps every other entry, in order, and drops only the
      first entry with that id. */
  lemma RemoveKeepsOthers(table: seq<Entry>, id: string, i: nat)
    requires FindJob(table, id) == Some(i)
    ensures var r := table[..i] + table[i + 1..];
      |r| == |table| - 1
      && (forall k :: 0 <= k < i ==> r[k] == table[k])
      && (forall k :: i <= k < |r| ==> r[k] == table[k + 1])
  {
  }
}
