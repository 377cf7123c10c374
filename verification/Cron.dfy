/** The cron job table over an abstract scheduler.

    The scheduler library is reduced to what the table relies on: AddFunc rejects
    a schedule it cannot parse and otherwise hands out entry ids 1, 2, 3, ...;
    Remove drops an entry; Entries lists the entries in some order. */
module Cron {
  /** Commands are identified by numbers. */
  datatype Entry = Entry(id: int, schedule: string, cmd: nat, prev: int, next: int)

  datatype Job = Job(ID: int, name: string, schedule: string, entryID: int, cmd: nat)

  datatype State = State(entries: seq<Entry>, nextId: int, jobs: map<int, Job>)

  datatype Event =
    | Add(name: string, schedule: string, cmd: nat)
    | Update(id: int, schedule: string)
    | Remove(id: int)
    | Fire(i: nat, prev: int, next: int)

  type Parser = string -> bool

  const INITIAL := State([], 1, map[])

  function Drop(entries: seq<Entry>, id: int): seq<Entry> {
    if entries == [] then []
    else (if entries[0].id == id then [] else [entries[0]]) + Drop(entries[1..], id)
  }

  function AddEntry(s: State, schedule: string, cmd: nat): State {
    s.(entries := s.entries + [Entry(s.nextId, schedule, cmd, 0, 0)], nextId := s.nextId + 1)
  }

  function Step(parses: Parser, s: State, e: Event): State {
    match e
    case Add(name, schedule, cmd) =>
      if !parses(schedule) then s
      else AddEntry(s, schedule, cmd).(jobs := s.jobs[s.nextId := Job(s.nextId, name, schedule, s.nextId, cmd)])
    case Update(id, schedule) =>
      if id !in s.jobs || !parses(schedule) then s
      else
        var t := AddEntry(s, schedule, s.jobs[id].cmd);
        var job := s.jobs[id].(ID := s.nextId, schedule := schedule, entryID := s.nextId);
        t.(entries := Drop(t.entries, id), jobs := s.jobs[s.nextId := job] - {id})
    case Remove(id) =>
      if id !in s.jobs then s else s.(entries := Drop(s.entries, id), jobs := s.jobs - {id})
    case Fire(i, prev, next) =>
      // the scheduler ran entry i and planned it again
      if i >= |s.entries| then s else s.(entries := s.entries[i := s.entries[i].(prev := prev, next := next)])
  }

  function Run(parses: Parser, evs: seq<Event>): State {
    if evs == [] then INITIAL else Step(parses, Run(parses, evs[..|evs| - 1]), evs[|evs| - 1])
  }

  function Listed(entries: seq<Entry>): set<int> {
    set e | e in entries :: e.id
  }

  ghost predicate Distinct(entries: seq<Entry>) {
    forall i, j :: 0 <= i < j < |entries| ==> entries[i].id != entries[j].id
  }

  /** The table and the scheduler describe the same jobs. */
  ghost predicate Inv(s: State) {
    && Distinct(s.entries)
    && (forall e :: e in s.entries ==>
          1 <= e.id < s.nextId && e.id in s.jobs && e.cmd == s.jobs[e.id].cmd && e.schedule == s.jobs[e.id].schedule)
    && (forall id :: id in s.jobs ==> id in Listed(s.entries) && s.jobs[id].ID == s.jobs[id].entryID == id)
  }

  lemma {:induction false} DropMembers(entries: seq<Entry>, id: int)
    ensures forall e :: e in Drop(entries, id) <==> e in entries && e.id != id
  {
    if entries != [] {
      DropMembers(entries[1..], id);
      assert entries == [entries[0]] + entries[1..];
    }
  }

  lemma {:induction false} DropKeepsDistinct(entries: seq<Entry>, id: int)
    requires Distinct(entries)
    ensures Distinct(Drop(entries, id))
  {
    if entries != [] {
      DropKeepsDistinct(entries[1..], id);
      DropMembers(entries[1..], id);
    }
  }

  lemma {:induction false} DropSize(entries: seq<Entry>, id: int)
    requires Distinct(entries)
    ensures |Drop(entries, id)| == |entries| - if id in Listed(entries) then 1 else 0
  {
    if entries != [] {
      DropSize(entries[1..], id);
    }
  }

  /** Removing an entry removes that one and no other. */
  lemma {:induction false} DropRemoves(entries: seq<Entry>, id: int)
    requires Distinct(entries)
    ensures Distinct(Drop(entries, id))
    ensures forall e :: e in Drop(entries, id) <==> e in entries && e.id != id
    ensures |Drop(entries, id)| == |entries| - if id in Listed(entries) then 1 else 0
  {
    DropMembers(entries, id);
    DropKeepsDistinct(entries, id);
    DropSize(entries, id);
  }

  lemma AddKeepsInv(s: State, name: string, schedule: string, cmd: nat)
    requires Inv(s) && s.nextId >= 1
    ensures Inv(AddEntry(s, schedule, cmd).(jobs := s.jobs[s.nextId := Job(s.nextId, name, schedule, s.nextId, cmd)]))
  {
    assert s.nextId !in s.jobs;
  }

  lemma RemoveKeepsInv(s: State, id: int)
    requires Inv(s)
    ensures Inv(s.(entries := Drop(s.entries, id), jobs := s.jobs - {id}))
  {
    DropRemoves(s.entries, id);
    DropListed(s.entries, id);
  }

  lemma FireKeepsInv(s: State, i: nat, prev: int, next: int)
    requires Inv(s) && i < |s.entries|
    ensures Inv(s.(entries := s.entries[i := s.entries[i].(prev := prev, next := next)]))
  {
    FireListed(s.entries, i, prev, next);
    var es := s.entries[i := s.entries[i].(prev := prev, next := next)];
    forall e | e in es
      ensures 1 <= e.id < s.nextId && e.id in s.jobs && e.cmd == s.jobs[e.id].cmd && e.schedule == s.jobs[e.id].schedule
    {
      var k :| 0 <= k < |es| && es[k] == e;
      assert s.entries[k] in s.entries;
    }
  }

  lemma StepKeepsInv(parses: Parser, s: State, e: Event)
    requires Inv(s) && s.nextId >= 1
    ensures Inv(Step(parses, s, e)) && Step(parses, s, e).nextId >= 1
  {
    match e
    case Add(name, schedule, cmd) =>
      if parses(schedule) {
        AddKeepsInv(s, name, schedule, cmd);
      }
    case Update(id, schedule) =>
      if id in s.jobs && parses(schedule) {
        AddKeepsInv(s, s.jobs[id].name, schedule, s.jobs[id].cmd);
        RemoveKeepsInv(Step(parses, s, Add(s.jobs[id].name, schedule, s.jobs[id].cmd)), id);
      }
    case Remove(id) =>
      if id in s.jobs {
        RemoveKeepsInv(s, id);
      }
    case Fire(i, prev, next) =>
      if i < |s.entries| {
        FireKeepsInv(s, i, prev, next);
      }
  }

  lemma DropListed(entries: seq<Entry>, id: int)
    requires Distinct(entries)
    ensures Listed(Drop(entries, id)) == Listed(entries) - {id}
  {
    DropRemoves(entries, id);
  }

  lemma FireListed(entries: seq<Entry>, i: nat, prev: int, next: int)
    requires i < |entries|
    ensures Listed(entries[i := entries[i].(prev := prev, next := next)]) == Listed(entries)
  {
    var es := entries[i := entries[i].(prev := prev, next := next)];
    forall k | 0 <= k < |entries| ensures entries[k].id in Listed(es) {
      assert es[k] in es && es[k].id == entries[k].id;
    }
    forall k | 0 <= k < |es| ensures es[k].id in Listed(entries) {
      assert entries[k] in entries;
    }
  }

  /** In every reachable state the table has exactly the scheduler's entry ids as
      keys, every record carries its key as ID and EntryID, and the scheduler
      holds the record's own command and schedule. */
  lemma {:induction false} Reachable(parses: Parser, evs: seq<Event>)
    ensures Inv(Run(parses, evs)) && Run(parses, evs).nextId >= 1
    ensures Run(parses, evs).jobs.Keys == Listed(Run(parses, evs).entries)
  {
    if evs != [] {
      Reachable(parses, evs[..|evs| - 1]);
      StepKeepsInv(parses, Run(parses, evs[..|evs| - 1]), evs[|evs| - 1]);
    }
  }

  /** AddJob files the job as given, under the id of its entry, and leaves every
      other job alone; a bad schedule changes nothing. */
  lemma AddFilesOneJob(parses: Parser, evs: seq<Event>, name: string, schedule: string, cmd: nat)
    ensures var s, s' := Run(parses, evs), Run(parses, evs + [Add(name, schedule, cmd)]);
            if !parses(schedule) then s' == s
            else
              && s.nextId !in s.jobs && s'.jobs == s.jobs[s.nextId := Job(s.nextId, name, schedule, s.nextId, cmd)]
              && s'.entries == s.entries + [Entry(s.nextId, schedule, cmd, 0, 0)] && s'.nextId == s.nextId + 1
  {
    Reachable(parses, evs);
  }

  /** UpdateJob is all or nothing: a bad schedule or an unknown id changes
      nothing; otherwise the job moves to a new id and keeps its name and command,
      every other job stays, and so does the number of jobs and of entries. */
  lemma UpdateMovesOneJob(parses: Parser, evs: seq<Event>, id: int, schedule: string)
    ensures var s, s' := Run(parses, evs), Run(parses, evs + [Update(id, schedule)]);
            if id !in s.jobs || !parses(schedule) then s' == s
            else
              && s.nextId !in s.jobs && s.nextId in s'.jobs && id !in s'.jobs
              && s'.jobs[s.nextId].name == s.jobs[id].name && s'.jobs[s.nextId].cmd == s.jobs[id].cmd
              && s'.jobs[s.nextId].schedule == schedule
              && |s'.jobs| == |s.jobs| && |s'.entries| == |s.entries|
              && (forall other :: other in s.jobs && other != id ==>
                    other in s'.jobs && s'.jobs[other] == s.jobs[other])
  {
    Reachable(parses, evs);
    if id in Run(parses, evs).jobs && parses(schedule) {
      UpdateEffect(parses, Run(parses, evs), id, schedule);
    }
  }

  lemma MovedEntries(s: State, id: int, schedule: string, cmd: nat)
    requires Inv(s) && s.nextId >= 1 && id in s.jobs
    ensures |Drop(AddEntry(s, schedule, cmd).entries, id)| == |s.entries|
  {
    DropSize(AddEntry(s, schedule, cmd).entries, id);
  }

  lemma UpdateEffect(parses: Parser, s: State, id: int, schedule: string)
    requires Inv(s) && s.nextId >= 1 && id in s.jobs && parses(schedule)
    ensures var s' := Step(parses, s, Update(id, schedule));
            && s.nextId !in s.jobs && s.nextId in s'.jobs && id !in s'.jobs
            && s'.jobs[s.nextId] == s.jobs[id].(ID := s.nextId, schedule := schedule, entryID := s.nextId)
            && |s'.jobs| == |s.jobs| && |s'.entries| == |s.entries|
            && (forall other :: other in s.jobs && other != id ==>
                    other in s'.jobs && s'.jobs[other] == s.jobs[other])
  {
    MovedEntries(s, id, schedule, s.jobs[id].cmd);
  }

  /** An id that has been given out and is no longer in the table never comes
      back: a caller holding the id of an updated or removed job only gets errors. */
  lemma {:induction false} RetiredIdsStayRetired(parses: Parser, evs: seq<Event>, more: seq<Event>, id: int)
    requires id < Run(parses, evs).nextId && id !in Run(parses, evs).jobs
    ensures id < Run(parses, evs + more).nextId && id !in Run(parses, evs + more).jobs
  {
    if more == [] {
      assert evs + more == evs;
    } else {
      var before := more[..|more| - 1];
      RetiredIdsStayRetired(parses, evs, before, id);
      assert evs + more == evs + before + [more[|more| - 1]];
    }
  }

  // The manager and its shared records

  function Moved(job: Job, newID: int, newSchedule: string): Job {
    job.(ID := newID, schedule := newSchedule, entryID := newID)
  }

  class CronJob {
    var ID: int
    var Name: string
    var Schedule: string
    var EntryID: int
    var cmd: nat

    constructor (id: int, name: string, schedule: string, cmd: nat)
      ensures Value() == Job(id, name, schedule, id, cmd)
    {
      ID, Name, Schedule, EntryID, this.cmd := id, name, schedule, id, cmd;
    }

    ghost function Value(): Job
      reads this
    {
      Job(ID, Name, Schedule, EntryID, cmd)
    }
  }

  /** What the records in a table hold now. */
  ghost function Values(table: map<int, CronJob>): map<int, Job>
    reads table.Values
  {
    map id | id in table :: table[id].Value()
  }

  lemma Refile(was: map<int, Job>, id: int, newID: int, job: Job)
    requires id in was && newID !in was
    ensures was[id := job][newID := job] - {id} == was[newID := job] - {id}
  {
  }

  class CronManager {
    const parses: Parser
    var entries: seq<Entry>
    var nextId: int
    var jobs: map<int, CronJob>
    ghost var history: seq<Event>

    ghost function View(): State
      reads this, jobs.Values
    {
      State(entries, nextId, Values(jobs))
    }

    ghost predicate Valid()
      reads this, jobs.Values
    {
      View() == Run(parses, history)
    }

    constructor (parses: Parser)
      ensures Valid() && history == [] && this.parses == parses
    {
      this.parses := parses;
      entries, nextId, jobs, history := [], 1, map[], [];
    }

    ghost method Log(e: Event, before: State)
      requires before == Run(parses, history) && View() == Step(parses, before, e)
      modifies this`history
      ensures Valid() && history == old(history) + [e]
    {
      history := history + [e];
      assert history[..|history| - 1] == old(history);
    }

    /** No two keys share a record. */
    lemma RecordsNotShared()
      requires Valid()
      ensures forall i, j :: i in jobs && j in jobs && jobs[i] == jobs[j] ==> i == j
      ensures forall i :: i in jobs ==> jobs[i].ID == jobs[i].EntryID == i < nextId
    {
      Reachable(parses, history);
      forall i | i in jobs ensures jobs[i].ID == jobs[i].EntryID == i < nextId {
        assert View().jobs[i] == jobs[i].Value();
      }
    }

    lemma NextIdFree()
      requires Valid()
      ensures nextId !in jobs
    {
      Reachable(parses, history);
      assert View().jobs.Keys == jobs.Keys;
    }

    /** The scheduler runs entry `i` and plans it again. */
    method RunEntry(i: nat, prev: int, next: int)
      requires Valid() && i < |entries|
      modifies this`entries, this`history
      ensures Valid() && history == old(history) + [Fire(i, prev, next)]
      ensures entries == old(entries)[i := old(entries[i]).(prev := prev, next := next)]
    {
      ghost var before := View();
      entries := entries[i := entries[i].(prev := prev, next := next)];
      Log(Fire(i, prev, next), before);
    }

    /** The scheduler's AddFunc. */
    method AddFunc(schedule: string, cmd: nat) returns (ok: bool, id: int)
      modifies this`entries, this`nextId
      ensures ok <==> parses(schedule)
      ensures ok ==> id == old(nextId) && nextId == id + 1 && entries == old(entries) + [Entry(id, schedule, cmd, 0, 0)]
      ensures !ok ==> id == 0 && nextId == old(nextId) && entries == old(entries)
    {
      ok, id := parses(schedule), 0;
      if ok {
        id := nextId;
        entries := entries + [Entry(id, schedule, cmd, 0, 0)];
        nextId := nextId + 1;
      }
    }

    /** The scheduler's Remove. */
    method RemoveEntry(id: int)
      modifies this`entries
      ensures entries == Drop(old(entries), id)
    {
      var kept: seq<Entry> := [];
      for i := 0 to |entries|
        invariant entries == old(entries)
        invariant Drop(entries, id) == kept + Drop(entries[i..], id)
      {
        assert entries[i..] == [entries[i]] + entries[i + 1..];
        if entries[i].id != id {
          kept := kept + [entries[i]];
        }
      }
      assert Drop(entries, id) == kept;
      entries := kept;
    }

    /** AddJob and AddAsyncJob differ only in how they wrap the command. */
    method AddJob(name: string, schedule: string, cmd: nat) returns (ok: bool, id: int)
      requires Valid()
      modifies this
      ensures Valid() && history == old(history) + [Add(name, schedule, cmd)]
      ensures ok <==> parses(schedule)
      ensures ok ==> id !in old(jobs) && jobs.Keys == old(jobs).Keys + {id} && fresh(jobs[id])
      ensures ok ==> jobs[id].Value() == Job(id, name, schedule, id, cmd)
      ensures ok ==> entries == old(entries) + [Entry(id, schedule, cmd, 0, 0)]
      ensures !ok ==> jobs == old(jobs)
    {
      NextIdFree();
      ghost var before := View();
      ok, id := AddFunc(schedule, cmd);
      if ok {
        var job := new CronJob(id, name, schedule, cmd);
        jobs := jobs[id := job];
      }
      Log(Add(name, schedule, cmd), before);
    }

    /** Changes the record in place. */
    method EditRecord(jobID: int, newID: int, newSchedule: string)
      requires jobID in jobs && forall i :: i in jobs && i != jobID ==> jobs[i] != jobs[jobID]
      modifies jobs[jobID]
      ensures View().jobs == old(View().jobs)[jobID := Moved(old(jobs[jobID].Value()), newID, newSchedule)]
    {
      ghost var was := Values(jobs);
      var job := jobs[jobID];
      job.ID := newID;
      job.Schedule := newSchedule;
      job.EntryID := newID;
      assert job.Value() == Moved(was[jobID], newID, newSchedule);
      assert forall i :: i in jobs && i != jobID ==> Values(jobs)[i] == was[i];
      assert Values(jobs) == was[jobID := job.Value()];
    }

    /** Changes the record in place and files it under the new id. */
    method Rekey(jobID: int, newID: int, newSchedule: string)
      requires jobID in jobs && newID !in jobs
      requires forall i :: i in jobs && i != jobID ==> jobs[i] != jobs[jobID]
      modifies this`jobs, jobs[jobID]
      ensures jobs == old(jobs)[newID := old(jobs[jobID])] - {jobID}
      ensures View().jobs
              == old(View().jobs)[newID := Moved(old(jobs[jobID].Value()), newID, newSchedule)] - {jobID}
    {
      ghost var was := View().jobs;
      EditRecord(jobID, newID, newSchedule);
      var job := jobs[jobID];
      jobs := jobs[newID := job];
      jobs := jobs - {jobID};
      Refile(was, jobID, newID, job.Value());
    }

    method UpdateJob(jobID: int, newSchedule: string) returns (ok: bool)
      requires Valid()
      modifies this, jobs.Values
      ensures Valid() && history == old(history) + [Update(jobID, newSchedule)]
      ensures ok <==> jobID in old(jobs) && parses(newSchedule)
      ensures !ok ==> View() == old(View())
      ensures ok ==> jobs == old(jobs)[old(nextId) := old(jobs[jobID])] - {jobID}
    {
      RecordsNotShared();
      ghost var before := View();
      ok := false;
      if jobID in jobs {
        var newID;
        ghost var job := jobs[jobID].Value();
        assert before.jobs[jobID] == job;
        ok, newID := AddFunc(newSchedule, jobs[jobID].cmd);
        if ok {
          RemoveEntry(jobID);
          assert View().jobs == before.jobs;
          Rekey(jobID, newID, newSchedule);
        }
      }
      Log(Update(jobID, newSchedule), before);
    }

    method RemoveJob(jobID: int) returns (ok: bool)
      requires Valid()
      modifies this
      ensures Valid() && history == old(history) + [Remove(jobID)]
      ensures ok <==> jobID in old(jobs)
      ensures jobs == old(jobs) - {jobID}
    {
      ghost var before := View();
      ok := jobID in jobs;
      if ok {
        RemoveEntry(jobID);
        jobs := jobs - {jobID};
      }
      assert View().jobs == Step(parses, before, Remove(jobID)).jobs;
      Log(Remove(jobID), before);
    }

    /** GetJobs: every job exactly once, in the scheduler's order, with the
        scheduler's times. */
    method GetJobs() returns (list: seq<(Job, int, int)>)
      requires Valid()
      ensures |list| == |entries| && jobs.Keys == Listed(entries) && Distinct(entries)
      ensures forall k :: 0 <= k < |list| ==>
                entries[k].id in jobs && list[k] == (jobs[entries[k].id].Value(), entries[k].prev, entries[k].next)
    {
      Reachable(parses, history);
      list := [];
      for i := 0 to |entries|
        invariant |list| == i
        invariant forall k :: 0 <= k < i ==>
                    entries[k].id in jobs && list[k] == (jobs[entries[k].id].Value(), entries[k].prev, entries[k].next)
      {
        var entry := entries[i];
        assert entry in entries && entry.id in View().jobs;
        if entry.id in jobs {
          var job := jobs[entry.id];
          list := list + [(Job(job.ID, job.Name, job.Schedule, job.EntryID, job.cmd), entry.prev, entry.next)];
        }
      }
    }
  }
}
