/** The resumable campaign runner: one checkpoint file per campaign, rewritten after every generated slot. */
module Campaigns {
  import opened MapSum
  import opened Wrappers

  type CampaignId = string

  /** A slot as stored; a hand-edited checkpoint may hold entries that are no slots at all. */
  datatype Slot =
    | Slot(index: nat, response: string)
    | NotASlot

  /** What reading a checkpoint path gives: text that is no JSON object, or the three fields the runner checks. */
  datatype File =
    | Unreadable
    | Record(recordType: string, campaignId: CampaignId, slots: Option<seq<Slot>>)

  datatype Temp = Torn | Complete(record: File)

  const RECORD_TYPE := "local_qwen38_proposal"

  function Checkpoint(id: CampaignId, slots: seq<Slot>): File {
    Record(RECORD_TYPE, id, Some(slots))
  }

  /** A response that was generated: the slots held in memory once it was appended, and whether the
      checkpoint holding them replaced the old one. */
  datatype Attempt = Attempt(id: CampaignId, slots: seq<Slot>, saved: bool)

  /** The output directory. The file name is a digest of the campaign id and SHA-256 is taken to be
      injective, so files are looked up by id. `log` is the history of generated responses. */
  datatype Disk = Disk(files: map<CampaignId, File>, temps: map<CampaignId, Temp>, log: seq<Attempt>)

  const EMPTY_DIRECTORY := Disk(map[], map[], [])

  // ---------------------------------------------------------------- checkpoint predicates

  /** _load_checkpoint: None is "start afresh". */
  function LoadCheckpoint(d: Disk, id: CampaignId): Option<seq<Slot>> {
    if id in d.files && d.files[id].Record? && d.files[id].recordType == RECORD_TYPE && d.files[id].campaignId == id
    then d.files[id].slots
    else None
  }

  predicate IsCompleted(d: Disk, id: CampaignId, size: nat) {
    match LoadCheckpoint(d, id)
    case None => false
    case Some(slots) => |slots| == size && forall s :: s in slots ==> s.Slot?
  }

  function Resumed(d: Disk, id: CampaignId): seq<Slot> {
    LoadCheckpoint(d, id).GetOr([])
  }

  function Pending(d: Disk, ids: seq<CampaignId>, size: nat): (pending: seq<CampaignId>)
    ensures |pending| <= |ids|
  {
    if ids == [] then []
    else (if IsCompleted(d, ids[0], size) then [] else [ids[0]]) + Pending(d, ids[1..], size)
  }

  // ---------------------------------------------------------------- what the environment decides

  datatype RaisePoint = InGenerate | InTempWrite | InReplace

  datatype KillPoint = BeforeAppend | BeforeTempWrite | InTheTempWrite | BeforeReplace | AfterReplace

  /** How one pass of the slot loop goes: it saves the response, raises an exception that the batch
      catches, or the process dies between any two steps. */
  datatype Outcome =
    | Saves(response: string)
    | Raises(response: string, at: RaisePoint)
    | Dies(response: string, when: KillPoint)

  datatype SlotEnd = Completed | Failed | Died

  function Persist(d: Disk, id: CampaignId, slots: seq<Slot>): Disk {
    Disk(d.files[id := Checkpoint(id, slots)], d.temps - {id}, d.log + [Attempt(id, slots, true)])
  }

  function Lose(d: Disk, id: CampaignId, slots: seq<Slot>, temp: Option<Temp>): Disk {
    d.(temps := if temp.Some? then d.temps[id := temp.value] else d.temps, log := d.log + [Attempt(id, slots, false)])
  }

  datatype PassEnd = GoesOn | Raised | Stopped

  /** One pass of the slot loop, `more` being the slots with the new response appended. */
  function Pass(d: Disk, id: CampaignId, more: seq<Slot>, outcome: Outcome): (Disk, PassEnd) {
    match outcome
    case Saves(_) => (Persist(d, id, more), GoesOn)
    case Raises(_, InGenerate) => (d, Raised)
    case Raises(_, InTempWrite) => (Lose(d, id, more, Some(Torn)), Raised)
    case Raises(_, InReplace) => (Lose(d, id, more, Some(Complete(Checkpoint(id, more)))), Raised)
    case Dies(_, BeforeAppend) => (d, Stopped)
    case Dies(_, BeforeTempWrite) => (Lose(d, id, more, None), Stopped)
    case Dies(_, InTheTempWrite) => (Lose(d, id, more, Some(Torn)), Stopped)
    case Dies(_, BeforeReplace) => (Lose(d, id, more, Some(Complete(Checkpoint(id, more)))), Stopped)
    case Dies(_, AfterReplace) => (Persist(d, id, more), Stopped)
  }

  /** The slot loop of one campaign, from the slots in memory. Yields the directory left behind, the
      number of slots saved, the outcomes not yet used, and how it ended. */
  function SlotLoop(d: Disk, id: CampaignId, slots: seq<Slot>, size: nat, outcomes: seq<Outcome>)
    : (r: (Disk, nat, seq<Outcome>, SlotEnd))
    ensures |r.2| <= |outcomes|
    decreases size - |slots|
  {
    if |slots| >= size then (d, 0, outcomes, Completed)
    else if outcomes == [] then (d, 0, [], Died)
    else
      var more := slots + [Slot(|slots|, outcomes[0].response)];
      match Pass(d, id, more, outcomes[0])
      case (d', GoesOn) =>
        var (d'', saved, rest, end) := SlotLoop(d', id, more, size, outcomes[1..]);
        (d'', saved + 1, rest, end)
      case (d', Raised) => (d', 0, outcomes[1..], Failed)
      case (d', Stopped) => (d', 0, outcomes[1..], Died)
  }

  datatype Batch = Batch(disk: Disk, completed: nat, failed: nat, newSlots: nat, aborted: bool)

  function BatchLoop(d: Disk, selected: seq<CampaignId>, size: nat, failFast: bool, outcomes: seq<Outcome>): Batch
    decreases |selected|
  {
    if selected == [] then Batch(d, 0, 0, 0, false)
    else
      var (d', saved, rest, end) := SlotLoop(d, selected[0], Resumed(d, selected[0]), size, outcomes);
      if end == Died || (end == Failed && failFast) then Batch(d', 0, if end == Failed then 1 else 0, saved, true)
      else
        var b := BatchLoop(d', selected[1..], size, failFast, rest);
        b.(completed := b.completed + (if end == Completed then 1 else 0),
           failed := b.failed + (if end == Failed then 1 else 0),
           newSlots := b.newSlots + saved)
  }

  /** What a run reports. Idle: nothing was pending. Aborted: the process died or --fail-fast re-raised. */
  datatype Report =
    | Idle
    | Aborted
    | Finished(newCampaigns: nat, failed: nat, newSlots: nat, alreadyCompleted: nat, remaining: int)

  function Take<T>(s: seq<T>, n: nat): seq<T> {
    if n <= |s| then s[..n] else s
  }

  function Session(d: Disk, ids: seq<CampaignId>, size: nat, max: nat, failFast: bool, outcomes: seq<Outcome>): (Disk, Report) {
    var pending := Pending(d, ids, size);
    var b := BatchLoop(d, Take(pending, max), size, failFast, outcomes);
    if Take(pending, max) == [] then (d, Idle)
    else if b.aborted then (b.disk, Aborted)
    else (b.disk, Finished(b.completed, b.failed, b.newSlots, |ids| - |pending|, |pending| - b.completed))
  }

  // ---------------------------------------------------------------- the runner, on a directory it rewrites

  class Runner {
    var files: map<CampaignId, File>
    var temps: map<CampaignId, Temp>
    ghost var log: seq<Attempt>

    ghost function Directory(): Disk
      reads this
    {
      Disk(files, temps, log)
    }

    constructor ()
      ensures Directory() == EMPTY_DIRECTORY
    {
      files, temps, log := map[], map[], [];
    }

    /** Only a fully written record of that very campaign is resumed; anything else is as good as no file. */
    method Load(id: CampaignId) returns (slots: Option<seq<Slot>>)
      ensures slots.Some? <==> id in files && exists s :: files[id] == Checkpoint(id, s)
      ensures slots.Some? ==> files[id] == Checkpoint(id, slots.value)
    {
      if id in files && files[id].Record? && files[id].recordType == RECORD_TYPE && files[id].campaignId == id {
        slots := files[id].slots;
        assert slots.Some? ==> files[id] == Checkpoint(id, slots.value);
        return;
      }
      return None;
    }

    /** _atomic_json_write, cut short where the outcome says so. */
    method AtomicWrite(id: CampaignId, slots: seq<Slot>, outcome: Outcome)
      requires outcome.Dies? ==> outcome.when != BeforeAppend
      requires outcome.Raises? ==> outcome.at != InGenerate
      modifies this
      ensures Directory() == Pass(old(Directory()), id, slots, outcome).0
    {
      if outcome.Dies? && outcome.when == BeforeTempWrite {
        log := log + [Attempt(id, slots, false)];
        return;
      }
      if (outcome.Dies? && outcome.when == InTheTempWrite) || (outcome.Raises? && outcome.at == InTempWrite) {
        temps := temps[id := Torn];
        log := log + [Attempt(id, slots, false)];
        return;
      }
      temps := temps[id := Complete(Checkpoint(id, slots))];
      if (outcome.Dies? && outcome.when == BeforeReplace) || (outcome.Raises? && outcome.at == InReplace) {
        log := log + [Attempt(id, slots, false)];
        return;
      }
      files, temps := files[id := temps[id].record], temps - {id};
      log := log + [Attempt(id, slots, true)];
      assert old(temps)[id := Complete(Checkpoint(id, slots))] - {id} == old(temps) - {id};
    }

    /** The body of the batch loop: generate and persist the missing slots of one campaign. */
    method RunCampaign(id: CampaignId, size: nat, outcomes: seq<Outcome>)
      returns (saved: nat, rest: seq<Outcome>, end: SlotEnd)
      modifies this
      ensures (Directory(), saved, rest, end)
           == SlotLoop(old(Directory()), id, Resumed(old(Directory()), id), size, outcomes)
    {
      var loaded := Load(id);
      LoadedExactly(Directory(), id, loaded);
      var slots := loaded.GetOr([]);
      saved, rest := 0, outcomes;
      while |slots| < size
        invariant var whole := SlotLoop(old(Directory()), id, Resumed(old(Directory()), id), size, outcomes);
                  var onwards := SlotLoop(Directory(), id, slots, size, rest);
                  whole == (onwards.0, saved + onwards.1, onwards.2, onwards.3)
        decreases size - |slots|
      {
        if rest == [] {
          return saved, [], Died;
        }
        var outcome := rest[0];
        rest := rest[1..];
        if outcome.Raises? && outcome.at == InGenerate {
          return saved, rest, Failed;
        }
        if outcome.Dies? && outcome.when == BeforeAppend {
          return saved, rest, Died;
        }
        slots := slots + [Slot(|slots|, outcome.response)];
        AtomicWrite(id, slots, outcome);
        if outcome.Raises? {
          return saved, rest, Failed;
        }
        if outcome.Dies? {
          return saved, rest, Died;
        }
        saved := saved + 1;
      }
      end := Completed;
    }

    method SelectPending(ids: seq<CampaignId>, size: nat) returns (pending: seq<CampaignId>, skipped: nat)
      ensures pending == Pending(Directory(), ids, size)
      ensures skipped == |ids| - |pending|
    {
      hide IsCompleted;
      pending, skipped := [], 0;
      var i := 0;
      while i < |ids|
        invariant 0 <= i <= |ids|
        invariant pending + Pending(Directory(), ids[i..], size) == Pending(Directory(), ids, size)
        invariant skipped == i - |pending|
      {
        if IsCompleted(Disk(files, temps, []), ids[i], size) {
          skipped := skipped + 1;
        } else {
          pending := pending + [ids[i]];
        }
        OnlyFilesMatter(Disk(files, temps, []), Directory(), ids[i], size);
        i := i + 1;
      }
    }

    /** main, after argument parsing. */
    method RunSession(ids: seq<CampaignId>, size: nat, max: nat, failFast: bool, outcomes: seq<Outcome>) returns (report: Report)
      modifies this
      ensures (Directory(), report) == Session(old(Directory()), ids, size, max, failFast, outcomes)
    {
      hide SlotLoop, Pending, Resumed, Take;
      var pending, skipped := SelectPending(ids, size);
      var selected := Take(pending, max);
      if selected == [] {
        return Idle;
      }
      var completed: nat, failed: nat, newSlots: nat, rest := 0, 0, 0, outcomes;
      var i := 0;
      while i < |selected|
        invariant 0 <= i <= |selected|
        invariant var whole := BatchLoop(old(Directory()), selected, size, failFast, outcomes);
                  var onwards := BatchLoop(Directory(), selected[i..], size, failFast, rest);
                  whole == Batch(onwards.disk, completed + onwards.completed, failed + onwards.failed,
                                 newSlots + onwards.newSlots, onwards.aborted)
      {
        var saved, end;
        assert selected[i..][1..] == selected[i + 1..];
        saved, rest, end := RunCampaign(selected[i], size, rest);
        newSlots := newSlots + saved;
        if end == Completed {
          completed := completed + 1;
        } else if end == Failed {
          failed := failed + 1;
        }
        if end == Died || (end == Failed && failFast) {
          return Aborted;
        }
        i := i + 1;
      }
      return Finished(completed, failed, newSlots, skipped, |pending| - completed);
    }
  }

  lemma OnlyFilesMatter(d: Disk, d': Disk, id: CampaignId, size: nat)
    requires d.files == d'.files
    ensures IsCompleted(d, id, size) == IsCompleted(d', id, size)
  {
  }

  lemma LoadedExactly(d: Disk, id: CampaignId, slots: Option<seq<Slot>>)
    requires slots.Some? <==> id in d.files && exists s :: d.files[id] == Checkpoint(id, s)
    requires slots.Some? ==> d.files[id] == Checkpoint(id, slots.value)
    ensures slots == LoadCheckpoint(d, id)
  {
    if LoadCheckpoint(d, id).Some? {
      assert d.files[id] == Checkpoint(id, LoadCheckpoint(d, id).value);
    }
  }

  /** What is written is what is loaded next, and until the replacement the old version is. */
  lemma LoadsWhatWasWritten(d: Disk, id: CampaignId, slots: seq<Slot>, outcome: Outcome, other: CampaignId)
    ensures LoadCheckpoint(Pass(d, id, slots, outcome).0, other)
         == if other == id && (outcome.Saves? || outcome == Dies(outcome.response, AfterReplace)) then Some(slots)
            else LoadCheckpoint(d, other)
  {
  }

  // ---------------------------------------------------------------- histories

  /** The slots of the latest saved attempt for `id`: what is on disk. */
  function Saved(log: seq<Attempt>, id: CampaignId): seq<Slot> {
    if log == [] then []
    else
      var before, a := log[..|log| - 1], log[|log| - 1];
      if a.saved && a.id == id then a.slots else Saved(before, id)
  }

  /** Every generated response was the next missing slot of what was then on disk. */
  ghost predicate Orderly(log: seq<Attempt>, size: nat) {
    log != [] ==>
      var before, a := log[..|log| - 1], log[|log| - 1];
      && Orderly(before, size)
      && |a.slots| == |Saved(before, a.id)| + 1 <= size
      && a.slots[..|a.slots| - 1] == Saved(before, a.id)
      && a.slots[|a.slots| - 1].Slot?
      && a.slots[|a.slots| - 1].index == |a.slots| - 1
  }

  /** The directory holds exactly what the history saved. */
  ghost predicate Sound(d: Disk, size: nat) {
    && Orderly(d.log, size)
    && forall id :: Holds(d, id)
  }

  ghost predicate Holds(d: Disk, id: CampaignId) {
    if Saved(d.log, id) == [] then id !in d.files
    else id in d.files && d.files[id] == Checkpoint(id, Saved(d.log, id))
  }

  ghost predicate Numbered(slots: seq<Slot>) {
    forall i :: 0 <= i < |slots| ==> slots[i].Slot? && slots[i].index == i
  }

  lemma {:induction false} SavedIsNumbered(log: seq<Attempt>, size: nat, id: CampaignId)
    requires Orderly(log, size)
    ensures Numbered(Saved(log, id)) && |Saved(log, id)| <= size
    decreases |log|
  {
    if log != [] {
      var before, a := log[..|log| - 1], log[|log| - 1];
      SavedIsNumbered(before, size, id);
      if a.saved && a.id == id {
        assert a.slots == a.slots[..|a.slots| - 1] + [a.slots[|a.slots| - 1]];
      }
    }
  }

  lemma SoundResumes(d: Disk, size: nat, id: CampaignId)
    requires Sound(d, size)
    ensures Resumed(d, id) == Saved(d.log, id) && |Saved(d.log, id)| <= size
    ensures IsCompleted(d, id, size) <==> id in d.files && |Saved(d.log, id)| == size
  {
    SavedIsNumbered(d.log, size, id);
    assert Holds(d, id);
  }

  lemma GrowIsSound(d: Disk, d': Disk, size: nat, a: Attempt)
    requires Sound(d, size) && |Saved(d.log, a.id)| < size
    requires exists response :: a.slots == Saved(d.log, a.id) + [Slot(|Saved(d.log, a.id)|, response)]
    requires d'.log == d.log + [a]
    requires d'.files == if a.saved then d.files[a.id := Checkpoint(a.id, a.slots)] else d.files
    ensures Sound(d', size)
    ensures Saved(d'.log, a.id) == if a.saved then a.slots else Saved(d.log, a.id)
  {
    assert d'.log[..|d'.log| - 1] == d.log;
    assert a.slots[..|a.slots| - 1] == Saved(d.log, a.id);
    forall id ensures Holds(d', id) {
      assert Holds(d, id);
    }
  }

  ghost predicate SameElsewhere(d: Disk, d': Disk, id: CampaignId) {
    forall other :: other != id ==>
      && (other in d'.files <==> other in d.files)
      && (other in d.files ==> d'.files[other] == d.files[other])
  }

  /** Whatever one pass runs into, the directory stays sound and gains at most the one new slot. */
  lemma PassIsSound(d: Disk, id: CampaignId, size: nat, outcome: Outcome)
    requires Sound(d, size) && |Saved(d.log, id)| < size
    ensures var slots := Saved(d.log, id);
            var more := slots + [Slot(|slots|, outcome.response)];
            var (d', end) := Pass(d, id, more, outcome);
      && Sound(d', size) && d.log <= d'.log && SameElsewhere(d, d', id)
      && Saved(d'.log, id) == if outcome.Saves? || outcome == Dies(outcome.response, AfterReplace) then more else slots
  {
    hide Orderly, Saved, Sound, Holds;
    var slots := Saved(d.log, id);
    var more := slots + [Slot(|slots|, outcome.response)];
    var d' := Pass(d, id, more, outcome).0;
    if d'.log != d.log {
      var a := d'.log[|d.log|];
      assert a.id == id && a.slots == slots + [Slot(|slots|, outcome.response)];
      GrowIsSound(d, d', size, a);
    }
  }

  /** What one campaign's slot loop does to the directory, whatever happens in it. */
  lemma {:induction false} SlotLoopIsSound(d: Disk, id: CampaignId, size: nat, outcomes: seq<Outcome>)
    requires Sound(d, size) && size > 0
    ensures var (d', saved, rest, end) := SlotLoop(d, id, Saved(d.log, id), size, outcomes);
      && Sound(d', size) && d.log <= d'.log && SameElsewhere(d, d', id)
      && (end != Died ==> |Saved(d'.log, id)| == |Saved(d.log, id)| + saved)
      && (end == Completed <==> end != Died && |Saved(d'.log, id)| == size)
    decreases size - |Saved(d.log, id)|
  {
    hide Orderly, Saved, Sound, Holds, IsCompleted, Resumed;
    var slots := Saved(d.log, id);
    SoundResumes(d, size, id);
    if |slots| < size && outcomes != [] {
      PassIsSound(d, id, size, outcomes[0]);
      if outcomes[0].Saves? {
        var more := slots + [Slot(|slots|, outcomes[0].response)];
        SlotLoopIsSound(Persist(d, id, more), id, size, outcomes[1..]);
      }
    }
  }

  lemma {:induction false} BatchIsSound(d: Disk, selected: seq<CampaignId>, size: nat, failFast: bool, outcomes: seq<Outcome>)
    requires Sound(d, size) && size > 0
    ensures var b := BatchLoop(d, selected, size, failFast, outcomes);
            Sound(b.disk, size) && d.log <= b.disk.log
    decreases |selected|
  {
    if selected != [] {
      SoundResumes(d, size, selected[0]);
      SlotLoopIsSound(d, selected[0], size, outcomes);
      var (d', saved, rest, end) := SlotLoop(d, selected[0], Resumed(d, selected[0]), size, outcomes);
      BatchIsSound(d', selected[1..], size, failFast, rest);
    }
  }

  // ---------------------------------------------------------------- main results: safety over all runs

  /** One invocation of the runner; the number of slots per campaign stays fixed. */
  datatype Invocation = Invocation(ids: seq<CampaignId>, max: nat, failFast: bool, outcomes: seq<Outcome>)

  function Runs(size: nat, invocations: seq<Invocation>): Disk {
    if invocations == [] then EMPTY_DIRECTORY
    else
      var d, v := Runs(size, invocations[..|invocations| - 1]), invocations[|invocations| - 1];
      Session(d, v.ids, size, v.max, v.failFast, v.outcomes).0
  }

  lemma {:induction false} RunsAreSound(size: nat, invocations: seq<Invocation>)
    requires size > 0
    ensures Sound(Runs(size, invocations), size)
    decreases |invocations|
  {
    if invocations != [] {
      var before, v := invocations[..|invocations| - 1], invocations[|invocations| - 1];
      RunsAreSound(size, before);
      var d := Runs(size, before);
      BatchIsSound(d, Take(Pending(d, v.ids, size), v.max), size, v.failFast, v.outcomes);
    } else {
      forall id ensures Holds(EMPTY_DIRECTORY, id) {}
    }
  }

  /** Whatever dies or fails, at any point of any run, every checkpoint file is a readable record of its own
      campaign holding slots 0..k-1 in order, with at least one and at most `size` of them. */
  lemma CheckpointsAreAlwaysResumable(size: nat, invocations: seq<Invocation>, id: CampaignId)
    requires size > 0 && id in Runs(size, invocations).files
    ensures var d := Runs(size, invocations);
            exists slots :: d.files[id] == Checkpoint(id, slots) && Numbered(slots) && 1 <= |slots| <= size
  {
    RunsAreSound(size, invocations);
    var d := Runs(size, invocations);
    assert Holds(d, id);
    SavedIsNumbered(d.log, size, id);
  }

  /** A response generated for a campaign always continues what was saved before it, so a saved slot is
      never generated again and a later version of a checkpoint only extends the earlier ones; a complete
      checkpoint is never followed by another attempt. */
  lemma HistoryOnlyExtends(size: nat, invocations: seq<Invocation>, j: nat, k: nat)
    requires size > 0
    requires j < k < |Runs(size, invocations).log|
    requires Runs(size, invocations).log[j].id == Runs(size, invocations).log[k].id
    requires Runs(size, invocations).log[j].saved
    ensures var earlier, later := Runs(size, invocations).log[j], Runs(size, invocations).log[k];
            earlier.slots < later.slots && |earlier.slots| < size
  {
    hide Runs;
    RunsAreSound(size, invocations);
    LogExtends(Runs(size, invocations).log, size, j, k);
  }

  lemma LogExtends(log: seq<Attempt>, size: nat, j: nat, k: nat)
    requires Orderly(log, size) && j < k < |log| && log[j].id == log[k].id && log[j].saved
    ensures log[j].slots < log[k].slots && |log[j].slots| < size
  {
    hide Saved;
    OrderlyPrefix(log, size, k + 1);
    var upTo := log[..k + 1];
    assert upTo[..k] == log[..k] && Orderly(upTo, size) && upTo[k] == log[k];
    SavedKeepsPrefix(log[..k], size, j);
  }

  lemma {:induction false} OrderlyPrefix(log: seq<Attempt>, size: nat, n: nat)
    requires Orderly(log, size) && n <= |log|
    ensures Orderly(log[..n], size)
    decreases |log|
  {
    if n < |log| {
      OrderlyPrefix(log[..|log| - 1], size, n);
      assert log[..|log| - 1][..n] == log[..n];
    } else {
      assert log[..n] == log;
    }
  }

  lemma {:induction false} SavedKeepsPrefix(log: seq<Attempt>, size: nat, j: nat)
    requires j < |log| && log[j].saved
    requires Orderly(log, size)
    ensures log[j].slots <= Saved(log, log[j].id)
    decreases |log|
  {
    var before := log[..|log| - 1];
    if j < |before| {
      SavedKeepsPrefix(before, size, j);
      assert before[j] == log[j];
    }
  }

  function SaveCount(log: seq<Attempt>): nat {
    if log == [] then 0
    else SaveCount(log[..|log| - 1]) + if log[|log| - 1].saved then 1 else 0
  }

  ghost function Lengths(log: seq<Attempt>): map<CampaignId, nat> {
    if log == [] then map[]
    else
      var before, a := Lengths(log[..|log| - 1]), log[|log| - 1];
      if a.saved then before[a.id := |a.slots|] else before
  }

  lemma {:induction false} LengthsAreSaved(log: seq<Attempt>, size: nat, id: CampaignId)
    requires Orderly(log, size)
    ensures Get(Lengths(log), id) == |Saved(log, id)|
    ensures id in Lengths(log) <==> Saved(log, id) != []
    ensures Sum(Lengths(log)) == SaveCount(log)
    decreases |log|
  {
    if log != [] {
      var before, a := log[..|log| - 1], log[|log| - 1];
      LengthsAreSaved(before, size, id);
      LengthsAreSaved(before, size, a.id);
      SumUpdate(Lengths(before), a.id, |a.slots|);
    }
  }

  /** No work is lost and none is counted twice: the slots on disk are as many as the responses saved. */
  lemma PersistedSlotsAreSaves(size: nat, invocations: seq<Invocation>)
    requires size > 0
    ensures var d := Runs(size, invocations); Persisted(d) == SaveCount(d.log)
  {
    RunsAreSound(size, invocations);
    SoundPersists(Runs(size, invocations), size);
  }

  /** The number of slots on disk. */
  ghost function Persisted(d: Disk): nat {
    Sum(map id | id in d.files :: |Resumed(d, id)|)
  }

  lemma SoundPersists(d: Disk, size: nat)
    requires Sound(d, size)
    ensures Persisted(d) == SaveCount(d.log)
  {
    var onDisk := map id | id in d.files :: |Resumed(d, id)|;
    forall id ensures id in onDisk <==> id in Lengths(d.log)
              ensures id in onDisk ==> onDisk[id] == Lengths(d.log)[id] {
      LengthsAreSaved(d.log, size, id);
      assert Holds(d, id);
    }
    assert onDisk == Lengths(d.log);
    LengthsAreSaved(d.log, size, "");
  }

  lemma PassCountsSaves(d: Disk, id: CampaignId, more: seq<Slot>, outcome: Outcome)
    ensures SaveCount(Pass(d, id, more, outcome).0.log)
         == SaveCount(d.log) + if outcome.Saves? || outcome == Dies(outcome.response, AfterReplace) then 1 else 0
  {
    var d' := Pass(d, id, more, outcome).0;
    if d'.log != d.log {
      assert d'.log[..|d'.log| - 1] == d.log;
    }
  }

  lemma {:induction false} SlotLoopCountsSaves(d: Disk, id: CampaignId, slots: seq<Slot>, size: nat, outcomes: seq<Outcome>)
    ensures var (d', saved, rest, end) := SlotLoop(d, id, slots, size, outcomes);
            SaveCount(d.log) + saved <= SaveCount(d'.log) <= SaveCount(d.log) + saved + (if end == Died then 1 else 0)
    decreases size - |slots|
  {
    hide SaveCount;
    if |slots| < size && outcomes != [] {
      var more := slots + [Slot(|slots|, outcomes[0].response)];
      PassCountsSaves(d, id, more, outcomes[0]);
      if outcomes[0].Saves? {
        SlotLoopCountsSaves(Pass(d, id, more, outcomes[0]).0, id, more, size, outcomes[1..]);
      }
    }
  }

  lemma {:induction false} BatchCountsSaves(d: Disk, selected: seq<CampaignId>, size: nat, failFast: bool, outcomes: seq<Outcome>)
    ensures var b := BatchLoop(d, selected, size, failFast, outcomes);
            SaveCount(d.log) + b.newSlots <= SaveCount(b.disk.log)
            && (!b.aborted ==> SaveCount(b.disk.log) == SaveCount(d.log) + b.newSlots)
    decreases |selected|
  {
    hide SlotLoop, SaveCount;
    if selected != [] {
      SlotLoopCountsSaves(d, selected[0], Resumed(d, selected[0]), size, outcomes);
      var (d', _, rest, _) := SlotLoop(d, selected[0], Resumed(d, selected[0]), size, outcomes);
      BatchCountsSaves(d', selected[1..], size, failFast, rest);
    }
  }

  /** A run that reports counts its new slots right: the checkpoints hold just that many more. */
  lemma ReportedSlotsArePersisted(size: nat, history: seq<Invocation>, v: Invocation)
    requires size > 0
    ensures var d := Runs(size, history);
            var (d', report) := Session(d, v.ids, size, v.max, v.failFast, v.outcomes);
            report.Finished? ==> Persisted(d') == Persisted(d) + report.newSlots
  {
    hide BatchLoop, Persisted, SaveCount, Sound, Pending;
    var d := Runs(size, history);
    var selected := Take(Pending(d, v.ids, size), v.max);
    RunsAreSound(size, history);
    SoundPersists(d, size);
    BatchIsSound(d, selected, size, v.failFast, v.outcomes);
    BatchCountsSaves(d, selected, size, v.failFast, v.outcomes);
    SoundPersists(BatchLoop(d, selected, size, v.failFast, v.outcomes).disk, size);
  }

  // ---------------------------------------------------------------- main results: what is on disk

  /** The outcome leaves its response in the checkpoint. */
  predicate Lasts(o: Outcome) {
    o.Saves? || (o.Dies? && o.when == AfterReplace)
  }

  /** The responses that last among the outcomes one campaign meets, numbered from `n` on. */
  function SlotsFrom(n: nat, outcomes: seq<Outcome>): seq<Slot>
    decreases |outcomes|
  {
    if outcomes == [] then []
    else if Lasts(outcomes[0]) then [Slot(n, outcomes[0].response)] + SlotsFrom(n + 1, outcomes[1..])
    else SlotsFrom(n, outcomes[1..])
  }

  /** The outcomes a slot loop uses up. */
  function Met(d: Disk, id: CampaignId, slots: seq<Slot>, size: nat, outcomes: seq<Outcome>): seq<Outcome> {
    outcomes[..|outcomes| - |SlotLoop(d, id, slots, size, outcomes).2|]
  }

  lemma {:induction false} RestIsSuffix(d: Disk, id: CampaignId, slots: seq<Slot>, size: nat, outcomes: seq<Outcome>)
    ensures var rest := SlotLoop(d, id, slots, size, outcomes).2; rest == outcomes[|outcomes| - |rest|..]
    decreases size - |slots|
  {
    if |slots| < size && outcomes != [] && outcomes[0].Saves? {
      var more := slots + [Slot(|slots|, outcomes[0].response)];
      RestIsSuffix(Persist(d, id, more), id, more, size, outcomes[1..]);
    }
  }

  /** What a slot loop adds to a checkpoint are the responses it generated, word for word and in order: every
      outcome before the last one it meets is a response that was saved, the last one may be a failure. */
  lemma {:induction false} SlotLoopKeepsResponses(d: Disk, id: CampaignId, size: nat, outcomes: seq<Outcome>)
    requires Sound(d, size) && size > 0
    ensures var before := Saved(d.log, id);
            var d' := SlotLoop(d, id, before, size, outcomes).0;
            Saved(d'.log, id) == before + SlotsFrom(|before|, Met(d, id, before, size, outcomes))
    decreases size - |Saved(d.log, id)|
  {
    hide Orderly, Saved, Sound, Holds, IsCompleted, Resumed;
    var slots := Saved(d.log, id);
    SoundResumes(d, size, id);
    if |slots| < size && outcomes != [] {
      var o, more := outcomes[0], slots + [Slot(|slots|, outcomes[0].response)];
      var d' := Pass(d, id, more, o).0;
      PassIsSound(d, id, size, o);
      if o.Saves? {
        SlotLoopKeepsResponses(d', id, size, outcomes[1..]);
        var met := Met(d, id, slots, size, outcomes);
        assert met[0] == o && met[1..] == Met(d', id, more, size, outcomes[1..]);
        assert slots + ([Slot(|slots|, o.response)] + SlotsFrom(|slots| + 1, met[1..])) == more + SlotsFrom(|more|, met[1..]);
      } else {
        var met := Met(d, id, slots, size, outcomes);
        assert met == [o] && met[1..] == [];
        assert SlotsFrom(|slots|, met) == if Lasts(o) then [Slot(|slots|, o.response)] + [] else [];
      }
    } else {
      assert Met(d, id, slots, size, outcomes) == [];
    }
  }

  /** The k-th slot added carries the k-th response met, whatever came before. */
  lemma {:induction false} SlotsFromAt(n: nat, outcomes: seq<Outcome>, k: nat)
    requires k < |outcomes| && forall j :: 0 <= j <= k ==> Lasts(outcomes[j])
    ensures k < |SlotsFrom(n, outcomes)| && SlotsFrom(n, outcomes)[k] == Slot(n + k, outcomes[k].response)
    decreases k
  {
    if k > 0 {
      SlotsFromAt(n + 1, outcomes[1..], k - 1);
    }
  }

  /** Which campaign met which outcome, in the order a batch, a run and a history of runs go. */
  function BatchTrace(d: Disk, selected: seq<CampaignId>, size: nat, failFast: bool, outcomes: seq<Outcome>): seq<(CampaignId, Outcome)>
    decreases |selected|
  {
    if selected == [] then []
    else
      var id := selected[0];
      var (d', _, rest, end) := SlotLoop(d, id, Resumed(d, id), size, outcomes);
      Tagged(id, Met(d, id, Resumed(d, id), size, outcomes))
      + if end == Died || (end == Failed && failFast) then [] else BatchTrace(d', selected[1..], size, failFast, rest)
  }

  function Tagged(id: CampaignId, outcomes: seq<Outcome>): seq<(CampaignId, Outcome)> {
    if outcomes == [] then [] else [(id, outcomes[0])] + Tagged(id, outcomes[1..])
  }

  function RunsTrace(size: nat, invocations: seq<Invocation>): seq<(CampaignId, Outcome)> {
    if invocations == [] then []
    else
      var before, v := invocations[..|invocations| - 1], invocations[|invocations| - 1];
      var d := Runs(size, before);
      RunsTrace(size, before) + BatchTrace(d, Take(Pending(d, v.ids, size), v.max), size, v.failFast, v.outcomes)
  }

  /** The outcomes one campaign met. */
  function Of(id: CampaignId, trace: seq<(CampaignId, Outcome)>): seq<Outcome> {
    if trace == [] then []
    else (if trace[0].0 == id then [trace[0].1] else []) + Of(id, trace[1..])
  }

  lemma {:induction false} OfConcat(id: CampaignId, a: seq<(CampaignId, Outcome)>, b: seq<(CampaignId, Outcome)>)
    ensures Of(id, a + b) == Of(id, a) + Of(id, b)
    decreases |a|
  {
    if a == [] {
      assert a + b == b;
    } else {
      OfConcat(id, a[1..], b);
      assert (a + b)[1..] == a[1..] + b && (a + b)[0] == a[0];
      var head := if a[0].0 == id then [a[0].1] else [];
      assert head + (Of(id, a[1..]) + Of(id, b)) == (head + Of(id, a[1..])) + Of(id, b);
    }
  }

  lemma {:induction false} OfTagged(id: CampaignId, other: CampaignId, outcomes: seq<Outcome>)
    ensures Of(id, Tagged(other, outcomes)) == if other == id then outcomes else []
    decreases |outcomes|
  {
    if outcomes != [] {
      OfTagged(id, other, outcomes[1..]);
      assert Tagged(other, outcomes)[1..] == Tagged(other, outcomes[1..]);
    }
  }

  lemma {:induction false} SlotsFromConcat(n: nat, a: seq<Outcome>, b: seq<Outcome>)
    ensures SlotsFrom(n, a + b) == SlotsFrom(n, a) + SlotsFrom(n + |SlotsFrom(n, a)|, b)
    decreases |a|
  {
    if a == [] {
      assert a + b == b;
      assert SlotsFrom(n, a) == [];
    } else {
      assert (a + b)[1..] == a[1..] + b && (a + b)[0] == a[0];
      var next := if Lasts(a[0]) then n + 1 else n;
      SlotsFromConcat(next, a[1..], b);
    }
  }

  lemma SlotsJoin(before: seq<Slot>, between: seq<Slot>, a: seq<Outcome>, b: seq<Outcome>)
    requires between == before + SlotsFrom(|before|, a)
    ensures between + SlotsFrom(|between|, b) == before + SlotsFrom(|before|, a + b)
  {
    hide SlotsFrom;
    SlotsFromConcat(|before|, a, b);
    var x := SlotsFrom(|before|, a);
    var y := SlotsFrom(|between|, b);
    assert |between| == |before| + |x|;
    JoinAssociates(before, x, y);
  }

  lemma JoinAssociates(a: seq<Slot>, b: seq<Slot>, c: seq<Slot>)
    ensures (a + b) + c == a + (b + c)
  {
  }

  lemma NoneMet(before: seq<Slot>, id: CampaignId)
    ensures Of(id, []) == [] && before == before + SlotsFrom(|before|, [])
  {
  }

  lemma {:induction false} BatchKeepsResponses(d: Disk, selected: seq<CampaignId>, size: nat, failFast: bool, outcomes: seq<Outcome>,
                                               id: CampaignId)
    requires Sound(d, size) && size > 0
    ensures var before := Saved(d.log, id);
            Saved(BatchLoop(d, selected, size, failFast, outcomes).disk.log, id)
            == before + SlotsFrom(|before|, Of(id, BatchTrace(d, selected, size, failFast, outcomes)))
    decreases |selected|
  {
    hide SlotLoop, Saved, Sound, Resumed, Met, SlotsFrom, Of, Tagged;
    if selected != [] {
      var other := selected[0];
      var (d', _, rest, end) := SlotLoop(d, other, Resumed(d, other), size, outcomes);
      var met := Met(d, other, Resumed(d, other), size, outcomes);
      SoundResumes(d, size, other);
      SlotLoopIsSound(d, other, size, outcomes);
      SlotLoopKeepsResponses(d, other, size, outcomes);
      if other != id {
        SavedElsewhere(d, d', size, other, id);
        NoneMet(Saved(d.log, id), id);
      }
      OfTagged(id, other, met);
      var mine := Of(id, Tagged(other, met));
      assert Saved(d'.log, id) == Saved(d.log, id) + SlotsFrom(|Saved(d.log, id)|, mine);
      var stops := end == Died || (end == Failed && failFast);
      var later := if stops then [] else BatchTrace(d', selected[1..], size, failFast, rest);
      if stops {
        NoneMet(Saved(d'.log, id), id);
      } else {
        BatchKeepsResponses(d', selected[1..], size, failFast, rest, id);
      }
      OfConcat(id, Tagged(other, met), later);
      SlotsJoin(Saved(d.log, id), Saved(d'.log, id), mine, Of(id, later));
    } else {
      NoneMet(Saved(d.log, id), id);
    }
  }

  lemma SavedElsewhere(d: Disk, d': Disk, size: nat, other: CampaignId, id: CampaignId)
    requires Sound(d, size) && Sound(d', size) && SameElsewhere(d, d', other) && id != other
    ensures Saved(d'.log, id) == Saved(d.log, id)
  {
    assert Holds(d, id) && Holds(d', id);
  }

  /** Over all runs, with failures and deaths anywhere, a campaign's slots on disk are exactly the responses
      generated for it that lasted, word for word, in the order they were generated. */
  lemma {:induction false} DiskHoldsTheResponses(size: nat, invocations: seq<Invocation>, id: CampaignId)
    requires size > 0
    ensures Resumed(Runs(size, invocations), id) == SlotsFrom(0, Of(id, RunsTrace(size, invocations)))
    decreases |invocations|
  {
    hide BatchLoop, BatchTrace, Pending, Sound, Saved, Resumed, SlotsFrom, Of;
    RunsAreSound(size, invocations);
    SoundResumes(Runs(size, invocations), size, id);
    if invocations == [] {
      NothingSaved(id);
    } else {
      var before, v := invocations[..|invocations| - 1], invocations[|invocations| - 1];
      var d := Runs(size, before);
      var selected := Take(Pending(d, v.ids, size), v.max);
      DiskHoldsTheResponses(size, before, id);
      RunsAreSound(size, before);
      SoundResumes(d, size, id);
      BatchKeepsResponses(d, selected, size, v.failFast, v.outcomes, id);
      EmptyBatch(d, selected, size, v.failFast, v.outcomes);
      var trace, more := RunsTrace(size, before), BatchTrace(d, selected, size, v.failFast, v.outcomes);
      OfConcat(id, trace, more);
      NoneMet([], id);
      SlotsJoin([], Resumed(d, id), Of(id, trace), Of(id, more));
    }
  }

  lemma NothingSaved(id: CampaignId)
    ensures Saved([], id) == [] && SlotsFrom(0, Of(id, [])) == []
  {
  }

  lemma EmptyBatch(d: Disk, selected: seq<CampaignId>, size: nat, failFast: bool, outcomes: seq<Outcome>)
    ensures selected == [] ==> BatchLoop(d, selected, size, failFast, outcomes).disk == d
  {
  }

  /** A campaign counts as complete exactly when its file is a full record of its own with proper slots only. */
  lemma CompletedExactly(d: Disk, id: CampaignId, size: nat)
    ensures IsCompleted(d, id, size) <==>
            id in d.files && exists slots: seq<Slot> :: d.files[id] == Checkpoint(id, slots) && |slots| == size
                                                        && forall s :: s in slots ==> s.Slot?
  {
    if IsCompleted(d, id, size) {
      assert d.files[id] == Checkpoint(id, LoadCheckpoint(d, id).value);
    }
  }

  // ---------------------------------------------------------------- main results: progress

  ghost predicate Distinct(ids: seq<CampaignId>) {
    forall i, j :: 0 <= i < j < |ids| ==> ids[i] != ids[j]
  }

  lemma {:induction false} PendingDepends(d: Disk, d': Disk, ids: seq<CampaignId>, size: nat)
    requires forall id :: id in ids ==> IsCompleted(d, id, size) == IsCompleted(d', id, size)
    ensures Pending(d, ids, size) == Pending(d', ids, size)
    decreases |ids|
  {
    if ids != [] {
      PendingDepends(d, d', ids[1..], size);
    }
  }

  lemma {:induction false} PendingMembers(d: Disk, ids: seq<CampaignId>, size: nat)
    requires Distinct(ids)
    ensures var p := Pending(d, ids, size);
      && Distinct(p)
      && (forall id :: id in p <==> id in ids && !IsCompleted(d, id, size))
    decreases |ids|
  {
    if ids != [] {
      PendingMembers(d, ids[1..], size);
      var p := Pending(d, ids, size);
      assert ids == [ids[0]] + ids[1..];
      assert ids[0] !in ids[1..];
      if !IsCompleted(d, ids[0], size) {
        assert p == [ids[0]] + Pending(d, ids[1..], size);
      }
    }
  }

  /** A batch that runs to its end turns exactly `completed` of the selected campaigns into complete ones
      and changes no other campaign. */
  lemma {:induction false} BatchCompletes(d: Disk, selected: seq<CampaignId>, size: nat, failFast: bool, outcomes: seq<Outcome>)
    requires Sound(d, size) && size > 0 && Distinct(selected)
    requires forall id :: id in selected ==> !IsCompleted(d, id, size)
    ensures var b := BatchLoop(d, selected, size, failFast, outcomes);
      && (forall id :: id !in selected ==> IsCompleted(b.disk, id, size) == IsCompleted(d, id, size))
      && (!b.aborted ==>
            && b.completed + b.failed == |selected|
            && |Pending(b.disk, selected, size)| == |selected| - b.completed)
    decreases |selected|
  {
    if selected != [] {
      var first, others := selected[0], selected[1..];
      var (d', saved, rest, end) := SlotLoop(d, first, Resumed(d, first), size, outcomes);
      SoundResumes(d, size, first);
      SlotLoopIsSound(d, first, size, outcomes);
      SoundResumes(d', size, first);
      assert Holds(d', first);
      assert selected == [first] + others;
      assert first !in others;
      forall id | id != first ensures IsCompleted(d', id, size) == IsCompleted(d, id, size) {}
      var b := BatchLoop(d', others, size, failFast, rest);
      if !(end == Died || (end == Failed && failFast)) {
        BatchCompletes(d', others, size, failFast, rest);
        assert IsCompleted(b.disk, first, size) == IsCompleted(d', first, size);
        assert IsCompleted(d', first, size) <==> end == Completed;
      }
    }
  }

  lemma {:induction false} PendingConcat(d: Disk, a: seq<CampaignId>, b: seq<CampaignId>, size: nat)
    ensures Pending(d, a + b, size) == Pending(d, a, size) + Pending(d, b, size)
    decreases |a|
  {
    if a == [] {
      assert a + b == b;
    } else {
      assert (a + b)[1..] == a[1..] + b;
      PendingConcat(d, a[1..], b, size);
    }
  }

  /** Campaigns that were complete stay out of the pending list; the rest of it can be read off the old one. */
  lemma {:induction false} PendingAgain(d: Disk, d': Disk, ids: seq<CampaignId>, size: nat)
    requires forall id :: id in ids && IsCompleted(d, id, size) ==> IsCompleted(d', id, size)
    ensures Pending(d', ids, size) == Pending(d', Pending(d, ids, size), size)
    decreases |ids|
  {
    if ids != [] {
      PendingAgain(d, d', ids[1..], size);
      var rest := Pending(d, ids[1..], size);
      if !IsCompleted(d, ids[0], size) {
        assert ([ids[0]] + rest)[1..] == rest;
      } else {
        assert [] + rest == rest;
      }
    }
  }

  lemma SessionSplitsPending(d: Disk, v: Invocation, size: nat)
    requires Sound(d, size) && size > 0 && Distinct(v.ids)
    ensures var pending := Pending(d, v.ids, size);
            var selected := Take(pending, v.max);
            var (d', report) := Session(d, v.ids, size, v.max, v.failFast, v.outcomes);
      && Pending(d', v.ids, size) == Pending(d', selected, size) + pending[|selected|..]
      && (report.Finished? ==>
            && report.newCampaigns + report.failed == |selected|
            && |Pending(d', selected, size)| == |selected| - report.newCampaigns)
  {
    hide IsCompleted, BatchLoop, Sound, Pending;
    var pending := Pending(d, v.ids, size);
    var selected, unselected := Take(pending, v.max), pending[|Take(pending, v.max)|..];
    var (d', report) := Session(d, v.ids, size, v.max, v.failFast, v.outcomes);
    PendingMembers(d, v.ids, size);
    assert pending == selected + unselected;
    assert forall id :: id in selected ==> id in pending;
    forall id | id in unselected ensures id in pending && id !in selected {
      var j :| 0 <= j < |unselected| && unselected[j] == id;
      assert pending[|selected| + j] == id;
    }
    BatchCompletes(d, selected, size, v.failFast, v.outcomes);
    assert selected == [] ==> d' == d;
    forall id | id in v.ids && IsCompleted(d, id, size) ensures IsCompleted(d', id, size) {
      assert id !in selected;
    }
    PendingAgain(d, d', v.ids, size);
    PendingConcat(d', selected, unselected, size);
    PendingDepends(d, d', unselected, size);
    PendingOfPending(d, unselected, size);
  }

  lemma {:induction false} PendingOfPending(d: Disk, ids: seq<CampaignId>, size: nat)
    requires forall id :: id in ids ==> !IsCompleted(d, id, size)
    ensures Pending(d, ids, size) == ids
    decreases |ids|
  {
    if ids != [] {
      PendingOfPending(d, ids[1..], size);
    }
  }

  /** In any reachable directory, a run that reports at all reports the truth: the selected campaigns are
      split into completed and failed ones, and `remaining` is what the next run on the same list will find
      pending, however many campaigns failed in between. */
  lemma ReportPredictsNextRun(size: nat, history: seq<Invocation>, v: Invocation)
    requires size > 0 && Distinct(v.ids)
    ensures var d := Runs(size, history);
            var (d', report) := Session(d, v.ids, size, v.max, v.failFast, v.outcomes);
            var pending := Pending(d, v.ids, size);
            report.Finished? ==>
              && report.newCampaigns + report.failed == (if v.max < |pending| then v.max else |pending|)
              && report.alreadyCompleted == |v.ids| - |pending|
              && report.remaining == |Pending(d', v.ids, size)|
  {
    RunsAreSound(size, history);
    SessionSplitsPending(Runs(size, history), v, size);
  }

  /** No failure and no death, and enough responses for everything selected. */
  ghost predicate FailureFree(v: Invocation, size: nat) {
    && (forall o :: o in v.outcomes ==> o.Saves?)
    && v.max * size <= |v.outcomes|
  }

  lemma {:induction false} SlotLoopCompletes(d: Disk, id: CampaignId, slots: seq<Slot>, size: nat, outcomes: seq<Outcome>)
    requires forall o :: o in outcomes ==> o.Saves?
    requires size <= |slots| + |outcomes|
    ensures var (d', saved, rest, end) := SlotLoop(d, id, slots, size, outcomes);
      && end == Completed
      && (forall o :: o in rest ==> o.Saves?)
      && |outcomes| <= |rest| + size
    decreases size - |slots|
  {
    if |slots| < size {
      assert forall o :: o in outcomes[1..] ==> o in outcomes;
      assert outcomes[0].Saves?;
      var more := slots + [Slot(|slots|, outcomes[0].response)];
      SlotLoopCompletes(Persist(d, id, more), id, more, size, outcomes[1..]);
      SlotLoopUses(Persist(d, id, more), id, more, size, outcomes[1..]);
    }
  }

  lemma {:induction false} SlotLoopUses(d: Disk, id: CampaignId, slots: seq<Slot>, size: nat, outcomes: seq<Outcome>)
    ensures |outcomes| <= |SlotLoop(d, id, slots, size, outcomes).2| + (if size <= |slots| then 0 else size - |slots|)
    decreases size - |slots|
  {
    if |slots| < size && outcomes != [] && outcomes[0].Saves? {
      var more := slots + [Slot(|slots|, outcomes[0].response)];
      SlotLoopUses(Persist(d, id, more), id, more, size, outcomes[1..]);
    }
  }

  lemma {:induction false} FailureFreeBatchCompletes(d: Disk, selected: seq<CampaignId>, size: nat, failFast: bool, outcomes: seq<Outcome>)
    requires forall o :: o in outcomes ==> o.Saves?
    requires |selected| * size <= |outcomes|
    ensures var b := BatchLoop(d, selected, size, failFast, outcomes);
            !b.aborted && b.completed == |selected|
    decreases |selected|
  {
    if selected != [] {
      assert |selected| * size == |selected[1..]| * size + size;
      assert |selected[1..]| * size >= 0;
      SlotLoopCompletes(d, selected[0], Resumed(d, selected[0]), size, outcomes);
      var (d', _, rest, _) := SlotLoop(d, selected[0], Resumed(d, selected[0]), size, outcomes);
      FailureFreeBatchCompletes(d', selected[1..], size, failFast, rest);
    }
  }

  /** A failure-free run completes as many campaigns as it may, from the front of the pending list. */
  lemma FailureFreeRunAdvances(d: Disk, v: Invocation, size: nat)
    requires Sound(d, size) && size > 0 && Distinct(v.ids) && FailureFree(v, size)
    ensures var pending := Pending(d, v.ids, size);
            var after := Pending(Session(d, v.ids, size, v.max, v.failFast, v.outcomes).0, v.ids, size);
            after == pending[|Take(pending, v.max)|..] && |after| == if v.max < |pending| then |pending| - v.max else 0
  {
    var pending := Pending(d, v.ids, size);
    var selected := Take(pending, v.max);
    assert |selected| * size <= v.max * size by { MulOrder(|selected|, v.max, size); }
    FailureFreeBatchCompletes(d, selected, size, v.failFast, v.outcomes);
    SessionSplitsPending(d, v, size);
  }

  lemma MulOrder(a: nat, b: nat, c: nat)
    requires a <= b
    ensures a * c <= b * c
  {
  }

  /** From any reachable directory, n failure-free runs of at least `max` campaigns each finish everything as
      soon as n * max covers what was pending; in particular ceil(pending / max) of them do. */
  lemma {:induction false} EnoughRunsFinish(size: nat, history: seq<Invocation>, ids: seq<CampaignId>, max: nat, more: seq<Invocation>)
    requires size > 0 && Distinct(ids)
    requires forall v :: v in more ==> v.ids == ids && v.max == max && FailureFree(v, size)
    ensures var p := |Pending(Runs(size, history), ids, size)|;
            |Pending(Runs(size, history + more), ids, size)| == if |more| * max < p then p - |more| * max else 0
    decreases |more|
  {
    hide Session, Pending, FailureFree, Take, Sound;
    if more == [] {
      assert history + more == history;
    } else {
      var before, v := more[..|more| - 1], more[|more| - 1];
      EnoughRunsFinish(size, history, ids, max, before);
      RunsAreSound(size, history + before);
      assert v in more;
      var d := Runs(size, history + before);
      FailureFreeRunAdvances(d, v, size);
      assert (history + more)[..|history + more| - 1] == history + before;
      assert Runs(size, history + more) == Session(d, v.ids, size, v.max, v.failFast, v.outcomes).0;
      MulSuccessor(|before|, max);
    }
  }

  lemma MulSuccessor(n: nat, m: nat)
    ensures (n + 1) * m == n * m + m
    ensures n * m >= 0
  {
  }

  // ---------------------------------------------------------------- what a run reports

  lemma {:induction false} BatchCounts(d: Disk, selected: seq<CampaignId>, size: nat, failFast: bool, outcomes: seq<Outcome>)
    ensures var b := BatchLoop(d, selected, size, failFast, outcomes);
      && (!b.aborted ==> b.completed + b.failed == |selected|)
      && (failFast && !b.aborted ==> b.failed == 0)
    decreases |selected|
  {
    hide SlotLoop, Resumed;
    if selected != [] {
      var (d', saved, rest, end) := SlotLoop(d, selected[0], Resumed(d, selected[0]), size, outcomes);
      BatchCounts(d', selected[1..], size, failFast, rest);
    }
  }

  /** The reported numbers add up: what was selected either completed or failed, what was not pending is complete
      already, and what did not complete remains. With fail-fast a run that reports had no failure. */
  lemma ReportAddsUp(d: Disk, v: Invocation, size: nat)
    ensures var (d', report) := Session(d, v.ids, size, v.max, v.failFast, v.outcomes);
            var pending := |Pending(d, v.ids, size)|;
      && (report.Idle? <==> pending == 0 || v.max == 0)
      && (report.Finished? ==>
            && report.newCampaigns + report.failed == (if pending <= v.max then pending else v.max)
            && report.alreadyCompleted + pending == |v.ids|
            && report.remaining == pending - report.newCampaigns
            && (v.failFast ==> report.failed == 0))
  {
    hide Pending, SlotLoop, BatchLoop;
    BatchCounts(d, Take(Pending(d, v.ids, size), v.max), size, v.failFast, v.outcomes);
  }

  predicate Survives(outcomes: seq<Outcome>) {
    forall o :: o in outcomes ==> !o.Dies?
  }

  lemma {:induction false} SlotLoopSurvives(d: Disk, id: CampaignId, slots: seq<Slot>, size: nat, outcomes: seq<Outcome>)
    requires Survives(outcomes) && |slots| + |outcomes| >= size
    ensures var (_, _, rest, end) := SlotLoop(d, id, slots, size, outcomes);
            end != Died && (|slots| <= size ==> |slots| + |outcomes| <= size + |rest|) && Survives(rest)
            && (size <= |slots| ==> rest == outcomes)
    decreases size - |slots|
  {
    hide Pass;
    if |slots| < size {
      var more := slots + [Slot(|slots|, outcomes[0].response)];
      PassSurvives(d, id, more, outcomes[0]);
      SlotLoopSurvives(Pass(d, id, more, outcomes[0]).0, id, more, size, outcomes[1..]);
    }
  }

  lemma PassSurvives(d: Disk, id: CampaignId, more: seq<Slot>, outcome: Outcome)
    requires !outcome.Dies?
    ensures Pass(d, id, more, outcome).1 != Stopped
  {
  }

  /** Without fail-fast a campaign's failure never ends the batch: only a death of the process does. */
  lemma {:induction false} FailuresDoNotStopTheBatch(d: Disk, selected: seq<CampaignId>, size: nat, outcomes: seq<Outcome>)
    requires Survives(outcomes) && |outcomes| >= |selected| * size
    ensures !BatchLoop(d, selected, size, false, outcomes).aborted
    decreases |selected|
  {
    hide SlotLoop, Resumed, Survives;
    if selected != [] {
      var slots := Resumed(d, selected[0]);
      assert |selected| * size == size + |selected[1..]| * size;
      SlotLoopSurvives(d, selected[0], slots, size, outcomes);
      var (d', _, rest, _) := SlotLoop(d, selected[0], slots, size, outcomes);
      FailuresDoNotStopTheBatch(d', selected[1..], size, rest);
    }
  }
}
