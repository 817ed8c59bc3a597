/** The two threads of the file mover: one collects files into an archive, the other uploads it and deletes it. */
module Pipeline {
  import opened Bytes

  /** A file in an archive; the number is the position of its appending among all, so no two entries are the same. */
  datatype Entry = Entry(name: string, content: seq<byte>, id: nat)

  /**
   * Where the collecting thread is: looking through the directory, about to fetch file `i` of its list, waiting for the
   * archive, having it open, about to release it, or done with the first `i` files.
   */
  datatype Collector =
    | Listing(found: seq<string>)
    | Fetching(i: nat)
    | Waiting(i: nat, content: seq<byte>)
    | Inside(i: nat, content: seq<byte>, basis: seq<Entry>)
    | Leaving(i: nat, ok: bool)
    | Finished(i: nat)

  /** Where the uploading thread is; after a complete upload it releases the archive before it deletes it. */
  datatype Uploader =
    | Idle
    | Queued
    | Sending
    | Sent(snapshot: seq<Entry>)
    | Failed
    | Deleting(snapshot: seq<Entry>)
    | Stopped

  /**
   * `archive` is the local file, `uploaded` the archives sent so far, `appended` every file the archive took, and
   * `removed` those that left the list, in this run of the program or in earlier ones.
   */
  datatype State = State(
    semaphore: nat,
    history: seq<string>,
    collector: Collector,
    uploader: Uploader,
    archive: Option<seq<Entry>>,
    uploaded: seq<seq<Entry>>,
    appended: seq<Entry>,
    removed: seq<string>)

  datatype Event =
    | SeeName(name: string)
    | ListEnd
    | Fetch(content: seq<byte>)
    | GiveUp
    | CollectorEnters
    | Commit
    | AppendFails
    | CollectorLeaves
    | PassEnds
    | FindArchive
    | UploaderEnters
    | Transfer
    | TransferFails
    | UploaderLeaves
    | Unlink
    | UnlinkFails

  /** The program starts, perhaps with an archive left over from an earlier run. */
  function Initial(leftOver: Option<seq<Entry>>): State {
    State(1, [], Listing([]), Idle, leftOver, [], Contents(leftOver), Names(Contents(leftOver)))
  }

  /** The entries of an archive left over are numbered before the new ones. */
  predicate Numbered(leftOver: Option<seq<Entry>>) {
    forall e :: e in Contents(leftOver) ==> e.id < |Contents(leftOver)|
  }

  function Contents(a: Option<seq<Entry>>): seq<Entry> {
    if a.Some? then a.value else []
  }

  function Names(es: seq<Entry>): seq<string> {
    seq(|es|, i requires 0 <= i < |es| => es[i].name)
  }

  predicate HasName(es: seq<Entry>, name: string) {
    exists e :: e in es && e.name == name
  }

  /** The new files that are not in the list yet, one after the other. */
  function Merge(history: seq<string>, found: seq<string>): seq<string>
    decreases |found|
  {
    if found == [] then history
    else Merge(if found[0] in history then history else history + [found[0]], found[1..])
  }

  // The steps of the collecting thread

  /** A recent regular file in the directory; the look into the archive does not take the semaphore. */
  function StepSeeName(s: State, name: string): Option<State> {
    if !s.collector.Listing? then None
    else if HasName(Contents(s.archive), name) then Some(s)
    else Some(s.(collector := Listing(s.collector.found + [name])))
  }

  /** Without a new file nothing happens, whatever is left from before. */
  function StepListEnd(s: State): Option<State> {
    if !s.collector.Listing? then None
    else if s.collector.found == [] then Some(s)
    else Some(s.(history := Merge(s.history, s.collector.found), collector := Fetching(0)))
  }

  function StepFetch(s: State, content: seq<byte>): Option<State> {
    if s.collector.Fetching? && s.collector.i < |s.history| then Some(s.(collector := Waiting(s.collector.i, content)))
    else None
  }

  /** The end of the list, an archive that is too large or a download that fails. */
  function StepGiveUp(s: State): Option<State> {
    if s.collector.Fetching? then Some(s.(collector := Finished(s.collector.i))) else None
  }

  function StepCollectorEnters(s: State): Option<State> {
    if s.collector.Waiting? && s.semaphore > 0 then
      Some(s.(semaphore := s.semaphore - 1,
              collector := Inside(s.collector.i, s.collector.content, Contents(s.archive))))
    else None
  }

  /**
   * The archive is replaced by what was opened and the new file. A name that is already there is not added again, yet
   * the call succeeds.
   */
  function StepCommit(s: State): Option<State> {
    if !s.collector.Inside? || s.collector.i >= |s.history| then None
    else
      var c, name := s.collector, s.history[s.collector.i];
      if HasName(c.basis, name) then Some(s.(collector := Leaving(c.i, true)))
      else
        var e := Entry(name, c.content, |s.appended|);
        Some(s.(archive := Some(c.basis + [e]), appended := s.appended + [e], collector := Leaving(c.i, true)))
  }

  function StepAppendFails(s: State): Option<State> {
    if s.collector.Inside? then Some(s.(collector := Leaving(s.collector.i, false))) else None
  }

  function StepCollectorLeaves(s: State): Option<State> {
    if !s.collector.Leaving? then None
    else
      Some(s.(semaphore := s.semaphore + 1,
              collector := if s.collector.ok then Fetching(s.collector.i + 1) else Finished(s.collector.i)))
  }

  /** The files processed leave the list. */
  function StepPassEnds(s: State): Option<State> {
    if s.collector.Finished? && s.collector.i <= |s.history| then
      Some(s.(history := s.history[s.collector.i..], removed := s.removed + s.history[..s.collector.i],
              collector := Listing([])))
    else None
  }

  // The steps of the uploading thread

  function StepFindArchive(s: State): Option<State> {
    if s.uploader.Idle? && s.archive.Some? then Some(s.(uploader := Queued)) else None
  }

  function StepUploaderEnters(s: State): Option<State> {
    if s.uploader.Queued? && s.semaphore > 0 then Some(s.(semaphore := s.semaphore - 1, uploader := Sending)) else None
  }

  function StepTransfer(s: State): Option<State> {
    if s.uploader.Sending? && s.archive.Some? then
      Some(s.(uploader := Sent(s.archive.value), uploaded := s.uploaded + [s.archive.value]))
    else None
  }

  function StepTransferFails(s: State): Option<State> {
    if s.uploader.Sending? then Some(s.(uploader := Failed)) else None
  }

  function StepUploaderLeaves(s: State): Option<State> {
    if s.uploader.Sent? then Some(s.(semaphore := s.semaphore + 1, uploader := Deleting(s.uploader.snapshot)))
    else if s.uploader.Failed? then Some(s.(semaphore := s.semaphore + 1, uploader := Stopped))
    else None
  }

  function StepUnlink(s: State): Option<State> {
    if s.uploader.Deleting? then Some(s.(archive := None, uploader := Idle)) else None
  }

  /** The result of the deletion is not looked at. */
  function StepUnlinkFails(s: State): Option<State> {
    if s.uploader.Deleting? then Some(s.(uploader := Idle)) else None
  }

  /** The effect of an event, if it can happen. */
  function Step(s: State, e: Event): Option<State> {
    match e
    case SeeName(name) => StepSeeName(s, name)
    case ListEnd => StepListEnd(s)
    case Fetch(content) => StepFetch(s, content)
    case GiveUp => StepGiveUp(s)
    case CollectorEnters => StepCollectorEnters(s)
    case Commit => StepCommit(s)
    case AppendFails => StepAppendFails(s)
    case CollectorLeaves => StepCollectorLeaves(s)
    case PassEnds => StepPassEnds(s)
    case FindArchive => StepFindArchive(s)
    case UploaderEnters => StepUploaderEnters(s)
    case Transfer => StepTransfer(s)
    case TransferFails => StepTransferFails(s)
    case UploaderLeaves => StepUploaderLeaves(s)
    case Unlink => StepUnlink(s)
    case UnlinkFails => StepUnlinkFails(s)
  }

  /** The end of a run, if every event in it can happen when its turn comes. */
  function Run(s: State, events: seq<Event>): Option<State>
    decreases |events|
  {
    if events == [] then Some(s)
    else
      var t := Step(s, events[0]);
      if t.None? then None else Run(t.value, events[1..])
  }

  // What every step keeps

  predicate CollectorHolds(s: State) {
    s.collector.Inside? || s.collector.Leaving?
  }

  predicate UploaderHolds(s: State) {
    s.uploader.Sending? || s.uploader.Sent? || s.uploader.Failed?
  }

  /** The semaphore is one, less one for each thread inside. */
  predicate OneHolder(s: State) {
    s.semaphore + (if CollectorHolds(s) then 1 else 0) + (if UploaderHolds(s) then 1 else 0) == 1
  }

  predicate NoDuplicates(h: seq<string>) {
    forall i, j :: 0 <= i < j < |h| ==> h[i] != h[j]
  }

  /** How many files of the list have been processed in this pass. */
  function Processed(s: State): nat {
    match s.collector
    case Listing(_) => 0
    case Fetching(i) => i
    case Waiting(i, _) => i
    case Inside(i, _, _) => i
    case Leaving(i, ok) => if ok then i + 1 else i
    case Finished(i) => i
  }

  /** From `start` on, none of the names is the name of an entry. */
  predicate NoneNamed(es: seq<Entry>, names: seq<string>, start: nat) {
    forall i :: start <= i < |names| ==> !HasName(es, names[i])
  }

  /** What is left of the list is not in the archive, nor is what the directory has just shown. */
  predicate ListApart(s: State) {
    && NoDuplicates(s.history) && Processed(s) <= |s.history|
    && NoneNamed(Contents(s.archive), s.history, Processed(s))
    && (s.collector.Listing? ==> NoneNamed(Contents(s.archive), s.collector.found, 0))
    && (s.collector.Inside? ==> s.collector.i < |s.history| && NoneNamed(s.collector.basis, s.history, s.collector.i))
    && (s.collector.Waiting? ==> s.collector.i < |s.history|)
  }

  /** The archive's entries have been appended; a complete upload is a beginning of the archive until it is deleted. */
  predicate ArchiveConsistent(s: State) {
    && (forall e :: e in Contents(s.archive) ==> e in s.appended)
    && (forall k, e :: 0 <= k < |s.uploaded| && e in s.uploaded[k] ==> e in s.appended)
    && (forall e :: e in s.appended ==> e.id < |s.appended|)
    && (s.collector.Inside? ==> forall e :: e in s.collector.basis ==> e in s.appended)
    && (s.collector.Inside? && s.archive.Some? ==> s.collector.basis == s.archive.value)
    && (s.archive.None? ==> s.uploader.Idle? || s.uploader.Stopped?)
    && (s.uploader.Sent? ==> s.archive == Some(s.uploader.snapshot) && s.uploader.snapshot in s.uploaded)
    && (s.uploader.Deleting? ==> Behind(s))
  }

  /** What the archive took on after it was uploaded comes after the upload and is in no earlier one. */
  predicate Behind(s: State)
    requires s.uploader.Deleting?
  {
    && s.archive.Some? && s.uploader.snapshot in s.uploaded && s.uploader.snapshot <= s.archive.value
    && forall k, e :: 0 <= k < |s.uploaded| && e in s.archive.value[|s.uploader.snapshot|..] ==> e !in s.uploaded[k]
  }

  lemma {:induction false} MergeKeeps(h: seq<string>, found: seq<string>, es: seq<Entry>)
    requires NoDuplicates(h) && NoneNamed(es, h, 0) && NoneNamed(es, found, 0)
    ensures NoDuplicates(Merge(h, found)) && NoneNamed(es, Merge(h, found), 0)
    decreases |found|
  {
    if found != [] {
      MergeKeeps(if found[0] in h then h else h + [found[0]], found[1..], es);
    }
  }

  lemma SemaphoreStep(s: State, e: Event)
    requires OneHolder(s) && Step(s, e).Some?
    ensures OneHolder(Step(s, e).value)
  {
  }

  lemma NameAppended(es: seq<Entry>, e: Entry, name: string)
    ensures HasName(es + [e], name) <==> HasName(es, name) || e.name == name
  {
    if HasName(es, name) {
      var x :| x in es && x.name == name;
      assert x in es + [e];
    }
    if e.name == name {
      assert e in es + [e];
    }
  }

  lemma CommitKeepsList(s: State)
    requires ListApart(s) && StepCommit(s).Some?
    ensures ListApart(StepCommit(s).value) && !HasName(s.collector.basis, s.history[s.collector.i])
  {
    var c := s.collector;
    var e := Entry(s.history[c.i], c.content, |s.appended|);
    forall j | c.i + 1 <= j < |s.history|
      ensures !HasName(c.basis + [e], s.history[j])
    {
      NameAppended(c.basis, e, s.history[j]);
    }
  }

  lemma SeeNameKeepsList(s: State, name: string)
    requires ListApart(s) && StepSeeName(s, name).Some?
    ensures ListApart(StepSeeName(s, name).value)
  {
  }

  lemma ListEndKeepsList(s: State)
    requires ListApart(s) && StepListEnd(s).Some?
    ensures ListApart(StepListEnd(s).value)
  {
    MergeKeeps(s.history, s.collector.found, Contents(s.archive));
  }

  lemma PassEndsKeepsList(s: State)
    requires ListApart(s) && StepPassEnds(s).Some?
    ensures ListApart(StepPassEnds(s).value)
  {
    var t := StepPassEnds(s).value;
    assert forall j :: 0 <= j < |t.history| ==> t.history[j] == s.history[j + s.collector.i];
  }

  lemma ListStep(s: State, e: Event)
    requires ListApart(s) && Step(s, e).Some?
    ensures ListApart(Step(s, e).value)
  {
    match e
    case SeeName(name) => SeeNameKeepsList(s, name);
    case ListEnd => ListEndKeepsList(s);
    case Commit => CommitKeepsList(s);
    case PassEnds => PassEndsKeepsList(s);
    case Unlink =>
    case _ => OtherKeepsList(s, e);
  }

  lemma OtherKeepsList(s: State, e: Event)
    requires ListApart(s) && Step(s, e).Some?
    requires !e.SeeName? && !e.ListEnd? && !e.Commit? && !e.PassEnds? && !e.Unlink?
    ensures ListApart(Step(s, e).value)
  {
    var t := Step(s, e).value;
    assert t.history == s.history && t.archive == s.archive && Processed(t) == Processed(s);
  }

  lemma CommitKeepsArchive(s: State)
    requires ArchiveConsistent(s) && OneHolder(s) && StepCommit(s).Some?
    ensures ArchiveConsistent(StepCommit(s).value)
  {
    var t := StepCommit(s).value;
    if t.archive != s.archive && s.uploader.Deleting? {
      var n, e := |s.uploader.snapshot|, Entry(s.history[s.collector.i], s.collector.content, |s.appended|);
      assert t.archive.value[n..] == s.archive.value[n..] + [e];
      assert forall k :: 0 <= k < |s.uploaded| ==> e !in s.uploaded[k];
    }
  }

  lemma ArchiveStep(s: State, e: Event)
    requires ArchiveConsistent(s) && OneHolder(s) && Step(s, e).Some?
    ensures ArchiveConsistent(Step(s, e).value)
  {
    match e
    case Commit => CommitKeepsArchive(s);
    case UploaderLeaves =>
      if s.uploader.Sent? {
        assert s.uploader.snapshot[|s.uploader.snapshot|..] == [];
      }
    case _ =>
  }

  // The ledger: what has been appended is what has left the list or is about to

  /** Every processed file has been appended exactly once, in the order of the list, and nothing else has been. */
  predicate Ledger(s: State) {
    Processed(s) <= |s.history| && Names(s.appended) == s.removed + s.history[..Processed(s)]
  }

  lemma CommitKeepsLedger(s: State)
    requires Ledger(s) && ListApart(s) && StepCommit(s).Some?
    ensures Ledger(StepCommit(s).value)
  {
    CommitKeepsList(s);
    var i, name := s.collector.i, s.history[s.collector.i];
    assert Names(s.appended + [Entry(name, s.collector.content, |s.appended|)]) == Names(s.appended) + [name];
    assert s.history[..i + 1] == s.history[..i] + [name];
    assert s.removed + s.history[..i] + [name] == s.removed + s.history[..i + 1];
  }

  lemma LedgerStep(s: State, e: Event)
    requires Ledger(s) && ListApart(s) && Step(s, e).Some?
    ensures Ledger(Step(s, e).value)
  {
    match e
    case Commit => CommitKeepsLedger(s);
    case ListEnd =>
      assert s.history[..0] == Merge(s.history, s.collector.found)[..0];
    case PassEnds =>
      assert s.removed + s.history[..s.collector.i] + [] == s.removed + s.history[..s.collector.i];
    case _ =>
  }

  /** A failed upload gives the archive back as it was and ends the uploading thread for good. */
  lemma {:induction false} FailureStops(s: State, events: seq<Event>)
    requires (s.uploader.Failed? || s.uploader.Stopped?) && Run(s, events).Some?
    ensures var t := Run(s, events).value;
      (t.uploader.Failed? || t.uploader.Stopped?) && t.uploaded == s.uploaded
      && (s.archive.Some? ==> t.archive.Some?)
    decreases |events|
  {
    if events != [] {
      FailureStops(Step(s, events[0]).value, events[1..]);
    }
  }

  predicate Inv(s: State) {
    OneHolder(s) && ListApart(s) && ArchiveConsistent(s) && Ledger(s)
  }

  lemma InitialInv(leftOver: Option<seq<Entry>>)
    requires Numbered(leftOver)
    ensures Inv(Initial(leftOver))
  {
    var s := Initial(leftOver);
    assert s.removed + s.history[..0] == s.removed;
  }

  lemma {:induction false} RunKeepsInv(s: State, events: seq<Event>)
    requires Inv(s) && Run(s, events).Some?
    ensures Inv(Run(s, events).value)
    decreases |events|
  {
    if events != [] {
      SemaphoreStep(s, events[0]);
      ListStep(s, events[0]);
      ArchiveStep(s, events[0]);
      LedgerStep(s, events[0]);
      RunKeepsInv(Step(s, events[0]).value, events[1..]);
    }
  }

  /**
   * Whatever the interleaving: the threads never have the archive open together, the list has no duplicates, what is
   * left of it is not in the archive, and what has left it is, in order, what the archive took.
   */
  lemma Safety(leftOver: Option<seq<Entry>>, events: seq<Event>)
    requires Numbered(leftOver) && Run(Initial(leftOver), events).Some?
    ensures var s := Run(Initial(leftOver), events).value;
      && !(CollectorHolds(s) && UploaderHolds(s)) && s.semaphore <= 1
      && (s.semaphore == 0 <==> CollectorHolds(s) || UploaderHolds(s))
      && NoDuplicates(s.history) && Processed(s) <= |s.history|
      && NoneNamed(Contents(s.archive), s.history, Processed(s))
      && Names(s.appended) == s.removed + s.history[..Processed(s)]
  {
    InitialInv(leftOver);
    RunKeepsInv(Initial(leftOver), events);
  }

  // What is lost

  predicate InSome(uploaded: seq<seq<Entry>>, e: Entry) {
    exists k :: 0 <= k < |uploaded| && e in uploaded[k]
  }

  /** A file the archive took that is neither in the archive now nor in one that was uploaded. */
  predicate Lost(s: State, e: Entry) {
    e in s.appended && e !in Contents(s.archive) && !InSome(s.uploaded, e)
  }

  /** Deleting the archive loses exactly what was appended to it after its upload. */
  lemma UnlinkLoses(s: State, e: Entry)
    requires Inv(s) && s.uploader.Deleting?
    ensures Lost(StepUnlink(s).value, e) <==>
      Lost(s, e) || e in Contents(s.archive)[|s.uploader.snapshot|..]
  {
    var a, n := s.archive.value, |s.uploader.snapshot|;
    assert a == s.uploader.snapshot + a[n..];
    assert e in a <==> e in s.uploader.snapshot || e in a[n..];
    if e in s.uploader.snapshot {
      var k :| 0 <= k < |s.uploaded| && s.uploaded[k] == s.uploader.snapshot;
      assert e in s.uploaded[k];
    }
  }

  /** No other step loses anything. */
  lemma OthersLoseNothing(s: State, event: Event, e: Entry)
    requires Inv(s) && Step(s, event).Some? && !event.Unlink?
    ensures Lost(Step(s, event).value, e) ==> Lost(s, e)
  {
    match event
    case Commit =>
      CommitKeepsList(s);
      var x := Entry(s.history[s.collector.i], s.collector.content, |s.appended|);
      assert x in s.collector.basis + [x];
    case Transfer =>
      assert forall k :: 0 <= k < |s.uploaded| ==> (s.uploaded + [s.archive.value])[k] == s.uploaded[k];
    case _ =>
  }

  /** No append begins between an upload and the deletion that follows it. */
  predicate Quiet(s: State, events: seq<Event>)
    decreases |events|
  {
    events == [] ||
    (!(events[0].CollectorEnters? && s.uploader.Deleting?)
      && (Step(s, events[0]).Some? ==> Quiet(Step(s, events[0]).value, events[1..])))
  }

  predicate Undisturbed(s: State) {
    s.uploader.Deleting? ==> !CollectorHolds(s) && s.archive == Some(s.uploader.snapshot)
  }

  lemma {:induction false} QuietFrom(s: State, events: seq<Event>, e: Entry)
    requires Inv(s) && Undisturbed(s) && !Lost(s, e)
    requires Run(s, events).Some? && Quiet(s, events)
    ensures !Lost(Run(s, events).value, e)
    decreases |events|
  {
    if events != [] {
      var t := Step(s, events[0]).value;
      RunKeepsInv(s, events[..1]);
      OneStep(s, events[0]);
      if events[0].Unlink? {
        UnlinkLoses(s, e);
      } else {
        OthersLoseNothing(s, events[0], e);
      }
      QuietFrom(t, events[1..], e);
    }
  }

  lemma OneStep(s: State, e: Event)
    requires Inv(s) && Step(s, e).Some?
    ensures Inv(Step(s, e).value)
    ensures Undisturbed(s) && !(e.CollectorEnters? && s.uploader.Deleting?) ==> Undisturbed(Step(s, e).value)
  {
    SemaphoreStep(s, e);
    ListStep(s, e);
    ArchiveStep(s, e);
    LedgerStep(s, e);
  }

  /** In a run without such appends every file that has left the list is in the archive or in one that was uploaded. */
  lemma QuietRunsLoseNothing(leftOver: Option<seq<Entry>>, events: seq<Event>, name: string) returns (e: Entry)
    requires Numbered(leftOver) && Run(Initial(leftOver), events).Some? && Quiet(Initial(leftOver), events)
    requires name in Run(Initial(leftOver), events).value.removed
    ensures var s := Run(Initial(leftOver), events).value;
      e.name == name && e in s.appended && (e in Contents(s.archive) || InSome(s.uploaded, e))
  {
    var s := Run(Initial(leftOver), events).value;
    InitialInv(leftOver);
    RunKeepsInv(Initial(leftOver), events);
    var i :| 0 <= i < |s.removed| && s.removed[i] == name;
    assert Names(s.appended)[i] == name;
    e := s.appended[i];
    QuietFrom(Initial(leftOver), events, e);
  }

  lemma RunOn(s: State, e: Event, rest: seq<Event>)
    requires Step(s, e).Some?
    ensures Run(s, [e] + rest) == Run(Step(s, e).value, rest)
  {
    assert ([e] + rest)[1..] == rest;
  }

  /** An append from beginning to end. */
  function Appending(): seq<Event> {
    [CollectorEnters] + ([Commit] + ([CollectorLeaves] + []))
  }

  /** The state after it. */
  function AfterAppend(s: State): Option<State> {
    Run(s, Appending())
  }

  lemma AppendInFull(s: State)
    requires Inv(s) && s.collector.Waiting? && s.semaphore > 0
    ensures AfterAppend(s).Some? && Inv(AfterAppend(s).value)
    ensures var e := Entry(s.history[s.collector.i], s.collector.content, |s.appended|);
      AfterAppend(s).value == s.(archive := Some(Contents(s.archive) + [e]), appended := s.appended + [e],
                                 collector := Fetching(s.collector.i + 1))
  {
    var inside := StepCollectorEnters(s).value;
    RunOn(s, CollectorEnters, [Commit] + ([CollectorLeaves] + []));
    OneStep(s, CollectorEnters);
    CommitKeepsList(inside);
    RunOn(inside, Commit, [CollectorLeaves] + []);
    OneStep(inside, Commit);
    var leaving := StepCommit(inside).value;
    RunOn(leaving, CollectorLeaves, []);
    OneStep(leaving, CollectorLeaves);
  }

  /** Every file that is appended between the upload and the deletion is lost, though it counts as processed. */
  lemma RaceLoses(s: State)
    requires Inv(s) && s.uploader.Deleting? && s.collector.Waiting?
    ensures AfterAppend(s).Some? && StepUnlink(AfterAppend(s).value).Some?
    ensures var t := StepUnlink(AfterAppend(s).value).value;
      && Processed(t) == s.collector.i + 1
      && Lost(t, Entry(s.history[s.collector.i], s.collector.content, |s.appended|))
  {
    AppendInFull(s);
    var t, n := AfterAppend(s).value, |s.uploader.snapshot|;
    var e := Entry(s.history[s.collector.i], s.collector.content, |s.appended|);
    assert t.archive.value[n..] == s.archive.value[n..] + [e];
    UnlinkLoses(t, e);
  }

  lemma {:induction false} RunSplit(s: State, a: seq<Event>, b: seq<Event>)
    requires Run(s, a).Some?
    ensures Run(s, a + b) == Run(Run(s, a).value, b)
    decreases |a|
  {
    if a == [] {
      assert a + b == b;
    } else {
      assert (a + b)[1..] == a[1..] + b;
      RunSplit(Step(s, a[0]).value, a[1..], b);
    }
  }

  /** Finding one new file, up to the wait for the archive. */
  function Finding(name: string, content: seq<byte>): seq<Event> {
    [SeeName(name)] + ([ListEnd] + ([Fetch(content)] + []))
  }

  lemma FindOne(s: State, name: string, content: seq<byte>)
    requires s.collector == Listing([]) && s.history == [] && !HasName(Contents(s.archive), name)
    ensures Run(s, Finding(name, content)) == Some(s.(history := [name], collector := Waiting(0, content)))
  {
    RunOn(s, SeeName(name), [ListEnd] + ([Fetch(content)] + []));
    var seen := StepSeeName(s, name).value;
    assert seen == s.(collector := Listing([name]));
    assert Merge([], [name]) == Merge([name], []) by {
      assert [name][1..] == [];
    }
    RunOn(seen, ListEnd, [Fetch(content)] + []);
    RunOn(StepListEnd(seen).value, Fetch(content), []);
  }

  function PassEnding(): seq<Event> {
    [GiveUp] + ([PassEnds] + [])
  }

  lemma EndPass(s: State)
    requires s.collector == Fetching(1) && |s.history| == 1
    ensures Run(s, PassEnding()) == Some(s.(history := [], removed := s.removed + s.history, collector := Listing([])))
  {
    RunOn(s, GiveUp, [PassEnds] + []);
    RunOn(StepGiveUp(s).value, PassEnds, []);
    assert s.history[1..] == [] && s.history[..1] == s.history;
  }

  function Uploading(): seq<Event> {
    [FindArchive] + ([UploaderEnters] + ([Transfer] + ([UploaderLeaves] + [])))
  }

  lemma Upload(s: State)
    requires s.uploader.Idle? && s.archive.Some? && s.semaphore == 1
    ensures Run(s, Uploading())
      == Some(s.(uploader := Deleting(s.archive.value), uploaded := s.uploaded + [s.archive.value]))
  {
    RunOn(s, FindArchive, [UploaderEnters] + ([Transfer] + ([UploaderLeaves] + [])));
    var queued := StepFindArchive(s).value;
    RunOn(queued, UploaderEnters, [Transfer] + ([UploaderLeaves] + []));
    var sending := StepUploaderEnters(queued).value;
    RunOn(sending, Transfer, [UploaderLeaves] + []);
    RunOn(StepTransfer(sending).value, UploaderLeaves, []);
  }

  /** One file is collected in a pass of its own. */
  function FirstPass(a: string, x: seq<byte>): seq<Event> {
    Finding(a, x) + Appending() + PassEnding()
  }

  lemma FirstPassRuns(a: string, x: seq<byte>)
    ensures var e := Entry(a, x, 0);
      Run(Initial(None), FirstPass(a, x)) == Some(State(1, [], Listing([]), Idle, Some([e]), [], [e], [a]))
  {
    var s0 := Initial(None);
    InitialInv(None);
    FindOne(s0, a, x);
    RunKeepsInv(s0, Finding(a, x));
    var s1 := Run(s0, Finding(a, x)).value;
    AppendInFull(s1);
    assert s0.removed == [] && [] + [a] == [a] && [] + [Entry(a, x, 0)] == [Entry(a, x, 0)];
    EndPass(AfterAppend(s1).value);
    RunSplit(s0, Finding(a, x), Appending());
    RunSplit(s0, Finding(a, x) + Appending(), PassEnding());
  }

  /** The archive with the first file is uploaded; a second one is found before the deletion and waits for it. */
  function RaceSetUp(a: string, x: seq<byte>, b: string, y: seq<byte>): seq<Event> {
    FirstPass(a, x) + Uploading() + Finding(b, y)
  }

  lemma RaceSetUpRuns(a: string, x: seq<byte>, b: string, y: seq<byte>)
    requires a != b
    ensures var e := Entry(a, x, 0);
      var s := State(1, [b], Waiting(0, y), Deleting([e]), Some([e]), [[e]], [e], [a]);
      Run(Initial(None), RaceSetUp(a, x, b, y)) == Some(s) && Inv(s)
  {
    var s0 := Initial(None);
    FirstPassRuns(a, x);
    var s1 := Run(s0, FirstPass(a, x)).value;
    Upload(s1);
    assert [] + [[Entry(a, x, 0)]] == [[Entry(a, x, 0)]];
    var s2 := Run(s1, Uploading()).value;
    FindOne(s2, b, y);
    RunSplit(s0, FirstPass(a, x), Uploading());
    RunSplit(s0, FirstPass(a, x) + Uploading(), Finding(b, y));
    InitialInv(None);
    RunKeepsInv(s0, RaceSetUp(a, x, b, y));
  }

  /** The second file is appended, the archive deleted, and the pass ends. */
  function RaceEnd(): seq<Event> {
    Appending() + ([Unlink] + []) + PassEnding()
  }

  lemma RaceEnds(s: State)
    requires Inv(s) && s.uploader.Deleting? && s.collector.Waiting? && |s.history| == 1
    ensures var t := Run(s, RaceEnd());
      t.Some? && t.value.removed == s.removed + s.history
      && Lost(t.value, Entry(s.history[0], s.collector.content, |s.appended|))
  {
    AppendInFull(s);
    RaceLoses(s);
    var t := AfterAppend(s).value;
    RunOn(t, Unlink, []);
    EndPass(StepUnlink(t).value);
    RunSplit(s, Appending(), [Unlink] + []);
    RunSplit(s, Appending() + ([Unlink] + []), PassEnding());
  }

  /** A whole run from an empty start, for any two names: the second file leaves the list and is in no archive. */
  lemma RunLosesFile(a: string, x: seq<byte>, b: string, y: seq<byte>)
    requires a != b
    ensures var s := Run(Initial(None), RaceSetUp(a, x, b, y) + RaceEnd());
      s.Some? && s.value.removed == [a, b] && Lost(s.value, Entry(b, y, 1))
  {
    RaceSetUpRuns(a, x, b, y);
    RaceEnds(Run(Initial(None), RaceSetUp(a, x, b, y)).value);
    RunSplit(Initial(None), RaceSetUp(a, x, b, y), RaceEnd());
    assert [a] + [b] == [a, b];
  }

  // The list of the collecting thread

  /** The names other than `name`, in order. */
  function Without(h: seq<string>, name: string): seq<string> {
    if h == [] then [] else (if h[0] == name then [] else [h[0]]) + Without(h[1..], name)
  }

  lemma {:induction false} WithoutAbsent(h: seq<string>, name: string)
    requires name !in h
    ensures Without(h, name) == h
  {
    if h != [] {
      WithoutAbsent(h[1..], name);
    }
  }

  lemma {:induction false} WithoutAppend(h: seq<string>, x: string, name: string)
    ensures Without(h + [x], name) == Without(h, name) + if x == name then [] else [x]
  {
    if h != [] {
      WithoutAppend(h[1..], x, name);
      assert (h + [x])[1..] == h[1..] + [x];
    } else {
      assert [x][1..] == [];
    }
  }

  /** Move the names to keep forward in place and cut off the rest. */
  method EraseAll(h: array<string>, len: nat, name: string) returns (kept: nat)
    requires len <= h.Length
    modifies h
    ensures kept <= len && h[..kept] == Without(old(h[..len]), name)
    ensures h[len..] == old(h[len..])
  {
    kept := 0;
    ghost var was := h[..];
    for k := 0 to len
      invariant kept <= k && h[..kept] == Without(was[..k], name)
      invariant h[k..] == was[k..]
    {
      assert h[k] == h[k..][0] == was[k];
      WithoutAppend(was[..k], was[k], name);
      assert was[..k + 1] == was[..k] + [was[k]];
      assert was[k + 1..] == was[k..][1..] == h[k..][1..];
      if h[k] != name {
        ghost var done := h[..kept];
        h[kept] := h[k];
        assert h[..kept + 1] == done + [was[k]];
        kept := kept + 1;
      }
    }
    assert was[..len] == old(h[..len]);
  }

  /** Remove the files processed in a pass: with a list without duplicates exactly the first ones go. */
  method RemoveProcessed(history: seq<string>, filesToRemove: seq<string>) returns (rest: seq<string>)
    requires NoDuplicates(history) && filesToRemove <= history
    ensures rest == history[|filesToRemove|..] && NoDuplicates(rest)
  {
    rest := history;
    for k := 0 to |filesToRemove|
      invariant rest == history[k..]
    {
      var a := new string[|rest|](i requires 0 <= i < |rest| => rest[i]);
      assert a[..|rest|] == rest;
      FirstGoes(rest);
      assert rest[0] == history[k] == filesToRemove[k];
      var kept := EraseAll(a, |rest|, filesToRemove[k]);
      rest := a[..kept];
    }
  }

  lemma FirstGoes(h: seq<string>)
    requires NoDuplicates(h) && h != []
    ensures Without(h, h[0]) == h[1..]
  {
    WithoutAbsent(h[1..], h[0]);
  }

  lemma {:induction false} MergeFresh(h: seq<string>, found: seq<string>)
    requires NoDuplicates(h + found)
    ensures Merge(h, found) == h + found
    decreases |found|
  {
    if found == [] {
      assert h + found == h;
    } else {
      assert (h + found)[|h|] == found[0] && forall i :: 0 <= i < |h| ==> (h + found)[i] == h[i];
      assert h + [found[0]] + found[1..] == h + found;
      MergeFresh(h + [found[0]], found[1..]);
    }
  }

  /** Add the new files that are not in the list. */
  method AddNew(history: seq<string>, found: seq<string>) returns (all: seq<string>)
    ensures all == Merge(history, found)
    ensures forall name :: name in all <==> name in history || name in found
    ensures NoDuplicates(history) ==> NoDuplicates(all)
    ensures history <= all && (NoDuplicates(history + found) ==> all == history + found)
  {
    all := history;
    if NoDuplicates(history + found) {
      MergeFresh(history, found);
    }
    for k := 0 to |found|
      invariant Merge(all, found[k..]) == Merge(history, found)
      invariant forall name :: name in all <==> name in history || name in found[..k]
      invariant NoDuplicates(history) ==> NoDuplicates(all)
      invariant history <= all
    {
      assert found[k..][1..] == found[k + 1..];
      assert found[..k + 1] == found[..k] + [found[k]];
      if found[k] !in all {
        all := all + [found[k]];
      }
    }
    assert found[..|found|] == found && found[0..] == found;
  }
}
