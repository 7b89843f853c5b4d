/** `pgbattery join` (`run_join_flow` in `src/app.rs`) as a machine that can be
    stopped between any two file operations: what it may delete, and when a
    stopped node can join again. */
module JoinFlow {
  import opened Options

  // ----- The three decisions -----

  /** `peer_speaks_for_lineage`: unknown is not a mismatch. */
  predicate PeerSpeaksForLineage(local: Option<int>, peer: Option<int>) {
    !(local.Some? && peer.Some?) || local.value == peer.value
  }

  /** `clone_supersedes_local_data`: only a proven match. */
  predicate CloneSupersedesLocalData(local: Option<int>, leader: Option<int>) {
    local.Some? && leader.Some? && local.value == leader.value
  }

  datatype JoinDataDir = Usable | ClearInterruptedClone | ClearSupersededData | Refuse

  function JoinDataDirDisposition(isEmpty: bool, holdsPgData: bool, local: Option<int>,
                                  leader: Option<int>): JoinDataDir
  {
    if isEmpty then Usable
    else if !holdsPgData then ClearInterruptedClone
    else if CloneSupersedesLocalData(local, leader) then ClearSupersededData
    else Refuse
  }

  // ----- What is on disk -----

  datatype RaftFile = RaftDb | RaftOther(name: string)

  /** The files of the data directory, subdirectories flattened. */
  datatype File = PgVersion | PgControl | PgOther(name: string)

  /** Written by the unfinished clone of join process `pid`, or not. */
  datatype Origin = Clone(pid: nat) | Settled

  /** `lineage` is the system identifier, when the file is the control file. */
  datatype Content = Content(origin: Origin, lineage: int)

  type DataDir = map<File, Content>

  predicate HoldsPgData(data: DataDir) { PgVersion in data }

  /** Reading the control file gives its lineage, or fails. */
  predicate Reads(data: DataDir, local: Option<int>) {
    local.Some? ==> PgControl in data && data[PgControl].lineage == local.value
  }

  // ----- The process -----

  const JOIN_CLONE_ATTEMPTS := 12

  /** `full` tells a whole join from the re-provisioning of a current member. */
  datatype Pc =
    | Down
    | Starting
    | AskMembership
    | CompareLineage
    | WipeRaft
    | Discover(full: bool)
    | FetchLineage
    | Inspecting(full: bool, leader: Option<int>)
    | Clearing(full: bool)
    | CheckEmpty(full: bool)
    | Register
    | Cloning(full: bool, attempt: nat)
    | Discarding(full: bool, attempt: nat)
    | Running

  datatype State = State(pc: Pc, pid: nat, raft: set<RaftFile>, data: DataDir)

  datatype Membership = Member | NotMember | Unreachable

  datatype Event =
    | StartUp
    | Stop                                     // a crash or an error return, anywhere
    | Outside(raft: set<RaftFile>, data: DataDir) // the operator, PostgreSQL or Raft, while no join is at work
    | LookForRaft
    | HearMembership(answer: Membership)
    | HearLineage(local: Option<int>, peer: Option<int>)
    | DeleteRaft(raftFile: RaftFile)
    | RaftWiped
    | FindLeader
    | HearLeaderLineage(leader: Option<int>)
    | Inspect(local: Option<int>)
    | Delete(file: File)
    | Cleared
    | CheckIsEmpty
    | Registered
    | CloneWrites(file: File, lineage: int)
    | CloneFails
    | Discarded(complete: bool)
    | CloneDone

  predicate Enabled(s: State, e: Event) {
    match e
    case StartUp => s.pc == Down
    case Stop => s.pc != Down
    case Outside(_, data) =>
      && (s.pc == Down || s.pc == Running)
      && (forall f | f in data && data[f].origin != Settled :: f in s.data && s.data[f] == data[f])
    case LookForRaft => s.pc == Starting
    case HearMembership(_) => s.pc == AskMembership
    case HearLineage(local, _) => s.pc == CompareLineage && Reads(s.data, local)
    case DeleteRaft(f) => s.pc == WipeRaft && f in s.raft
    case RaftWiped => s.pc == WipeRaft && s.raft == {}
    case FindLeader => s.pc.Discover?
    case HearLeaderLineage(_) => s.pc == FetchLineage
    case Inspect(local) => s.pc.Inspecting? && Reads(s.data, local) && (!HoldsPgData(s.data) ==> local == None)
    case Delete(f) => (s.pc.Clearing? || s.pc.Discarding?) && f in s.data
    case Cleared => s.pc.Clearing? && s.data == map[]
    case CheckIsEmpty => s.pc.CheckEmpty?
    case Registered => s.pc == Register
    case CloneWrites(_, _) => s.pc.Cloning?
    case CloneFails => s.pc.Cloning?
    case Discarded(complete) => s.pc.Discarding? && (complete ==> s.data == map[])
    case CloneDone => s.pc.Cloning? && PgVersion in s.data && PgControl in s.data  // a backup that succeeds is whole
  }

  function Step(s: State, e: Event): State
    requires Enabled(s, e)
  {
    match e
    case StartUp => s.(pc := Starting, pid := s.pid + 1)
    case Stop => s.(pc := Down)
    case Outside(raft, data) => s.(raft := raft, data := data)
    case LookForRaft => s.(pc := if RaftDb in s.raft then AskMembership else Discover(true))
    case HearMembership(answer) =>
      s.(pc := match answer
        case Member => if HoldsPgData(s.data) then Running else Discover(false)
        case NotMember => CompareLineage
        case Unreachable => Running)
    case HearLineage(local, peer) => s.(pc := if PeerSpeaksForLineage(local, peer) then WipeRaft else Running)
    case DeleteRaft(f) => s.(raft := s.raft - {f})
    case RaftWiped => s.(pc := Discover(true))
    case FindLeader => s.(pc := if s.pc.full then FetchLineage else Inspecting(false, None))
    case HearLeaderLineage(leader) => s.(pc := Inspecting(true, leader))
    case Inspect(local) =>
      s.(pc := match JoinDataDirDisposition(s.data == map[], HoldsPgData(s.data), local, s.pc.leader)
        case Usable => CheckEmpty(s.pc.full)
        case Refuse => CheckEmpty(s.pc.full)
        case ClearInterruptedClone => Clearing(s.pc.full)
        case ClearSupersededData => Clearing(s.pc.full))
    case Delete(f) => s.(data := s.data - {f})
    case Cleared => s.(pc := CheckEmpty(s.pc.full))
    case CheckIsEmpty => s.(pc := if s.data != map[] then Down else if s.pc.full then Register else Cloning(false, 1))
    case Registered => s.(pc := Cloning(true, 1))
    case CloneWrites(f, lineage) => s.(data := s.data[f := Content(Clone(s.pid), lineage)])
    case CloneFails => s.(pc := Discarding(s.pc.full, s.pc.attempt))
    case Discarded(_) =>
      s.(pc := if s.pc.full && s.pc.attempt < JOIN_CLONE_ATTEMPTS then Cloning(true, s.pc.attempt + 1) else Down)
    case CloneDone => s.(pc := Running, data := (map f | f in s.data :: s.data[f].(origin := Settled)))
  }

  // ----- Runs -----

  predicate IsRun(s: State, events: seq<Event>)
    decreases |events|, 0
  {
    events == [] || (IsRun(s, events[..|events| - 1])
                     && Enabled(After(s, events[..|events| - 1]), events[|events| - 1]))
  }

  function After(s: State, events: seq<Event>): State
    requires IsRun(s, events)
    decreases |events|, 1
  {
    if events == [] then s else Step(After(s, events[..|events| - 1]), events[|events| - 1])
  }

  /** `e` happened since the process last started. */
  predicate Since(events: seq<Event>, e: Event) {
    && events != [] && events[|events| - 1] != StartUp
    && (events[|events| - 1] == e || Since(events[..|events| - 1], e))
  }

  /** A node that is not running; nothing on disk is from a join to come. */
  predicate Init(s: State) {
    s.pc == Down && forall f | f in s.data && s.data[f].origin.Clone? :: s.data[f].origin.pid <= s.pid
  }

  // ----- Only proven-superseded data is deleted -----

  ghost predicate AllOwn(s: State) {
    forall f | f in s.data :: s.data[f].origin == Clone(s.pid)
  }

  ghost predicate ProvenSuperseded(s: State, events: seq<Event>) {
    exists l ::
      && Since(events, HearLeaderLineage(Some(l))) && Since(events, Inspect(Some(l)))
      && (PgControl in s.data ==> s.data[PgControl].lineage == l)
  }

  /** The peer that was asked is not known to speak for another cluster. */
  ghost predicate AnswerIsAboutUs(s: State, events: seq<Event>) {
    exists local, peer ::
      && Since(events, HearLineage(local, peer)) && Reads(s.data, local)
      && !(local.Some? && peer.Some? && local.value != peer.value)
  }

  ghost predicate Inv(s: State, events: seq<Event>) {
    && (forall f | f in s.data && s.data[f].origin.Clone? :: s.data[f].origin.pid <= s.pid)
    && (s.pc == CompareLineage || s.pc == WipeRaft ==> Since(events, HearMembership(NotMember)))
    && (s.pc == WipeRaft ==> AnswerIsAboutUs(s, events))
    && (s.pc.Inspecting? && s.pc.leader.Some? ==> Since(events, HearLeaderLineage(s.pc.leader)))
    && (s.pc.Clearing? ==> !HoldsPgData(s.data) || ProvenSuperseded(s, events))
    && (s.pc == Register ==> s.data == map[])
    && (s.pc.Cloning? || s.pc.Discarding? ==> AllOwn(s) && 1 <= s.pc.attempt <= JOIN_CLONE_ATTEMPTS)
  }

  lemma SinceLater(events: seq<Event>, e: Event, next: Event)
    requires next != StartUp
    ensures Since(events + [next], next)
    ensures Since(events, e) ==> Since(events + [next], e)
  {
    assert (events + [next])[..|events|] == events;
  }

  lemma StepKeepsInv(s: State, events: seq<Event>, e: Event)
    requires Inv(s, events) && Enabled(s, e)
    ensures Inv(Step(s, e), events + [e])
  {
    if e != StartUp {
      forall x ensures Since(events, x) ==> Since(events + [e], x) { SinceLater(events, x, e); }
      SinceLater(events, e, e);
    }
  }

  lemma {:induction false} RunsKeepInv(s: State, events: seq<Event>)
    requires Init(s) && IsRun(s, events)
    ensures Inv(After(s, events), events)
  {
    if events != [] {
      var init, e := events[..|events| - 1], events[|events| - 1];
      RunsKeepInv(s, init);
      StepKeepsInv(After(s, init), init, e);
      assert events == init + [e];
    }
  }

  /** However often the process starts, stops and is lied to: while the data
      directory is complete, a join deletes from it only when this process heard
      the leader's lineage and read the same one here, or when this process's own
      failed clone wrote all of it. */
  lemma {:induction false} CompleteDataIsDeletedOnlyWithProof(s: State, events: seq<Event>, f: File)
    requires Init(s) && IsRun(s, events) && Enabled(After(s, events), Delete(f))
    ensures var now := After(s, events);
            HoldsPgData(now.data) ==> ProvenSuperseded(now, events) || AllOwn(now)
  {
    RunsKeepInv(s, events);
  }

  /** Raft state is deleted only when this process was told it is not a member,
      by a peer whose lineage is not known to differ from the local one. */
  lemma {:induction false} RaftIsWipedOnlyWhenRemoved(s: State, events: seq<Event>, f: RaftFile)
    requires Init(s) && IsRun(s, events) && Enabled(After(s, events), DeleteRaft(f))
    ensures Since(events, HearMembership(NotMember)) && AnswerIsAboutUs(After(s, events), events)
  {
    RunsKeepInv(s, events);
  }

  /** A clone is only ever written into a directory that holds nothing but what
      this process's own clone attempts wrote, and there are at most twelve. */
  lemma {:induction false} CloneNeverMixes(s: State, events: seq<Event>)
    requires Init(s) && IsRun(s, events) && After(s, events).pc.Cloning?
    ensures AllOwn(After(s, events)) && 1 <= After(s, events).pc.attempt <= JOIN_CLONE_ATTEMPTS
  {
    RunsKeepInv(s, events);
  }

  // ----- What is deleted, over the whole life of the node -----

  /** Nobody but a join leaves a data directory without its `PG_VERSION`. */
  predicate Tidy(data: DataDir) {
    data == map[] || HoldsPgData(data)
  }

  predicate TidyOutside(events: seq<Event>) {
    forall e | e in events && e.Outside? :: Tidy(e.data)
  }

  /** The last event is an inspection that read the lineage this process heard of the leader. */
  ghost predicate ProvesSuperseded(events: seq<Event>) {
    && events != [] && events[|events| - 1].Inspect? && events[|events| - 1].local.Some?
    && Since(events, HearLeaderLineage(events[|events| - 1].local))
  }

  /** Some process proved the directory superseded, and it has not been filled since. */
  ghost predicate Condemned(events: seq<Event>) {
    && events != [] && !events[|events| - 1].Outside? && events[|events| - 1] != CloneDone
    && (Condemned(events[..|events| - 1]) || ProvesSuperseded(events))
  }

  /** Once the directory is filled again, by a whole clone or from outside, only a new proof condemns it. */
  lemma {:induction false} FilledIsNotCondemned(events: seq<Event>, fill: Event, later: seq<Event>)
    requires fill == CloneDone || fill.Outside?
    requires forall e | e in later :: !(e.Inspect? && e.local.Some?)
    ensures !Condemned(events + [fill] + later)
    decreases |later|
  {
    var all := events + [fill] + later;
    if later != [] {
      var init := later[..|later| - 1];
      FilledIsNotCondemned(events, fill, init);
      assert all[..|all| - 1] == events + [fill] + init;
      assert later[|later| - 1] in later && all[|all| - 1] == later[|later| - 1];
    } else {
      assert all[|all| - 1] == fill;
    }
  }

  ghost predicate Remains(s: State, events: seq<Event>) {
    && (!HoldsPgData(s.data) && (exists f :: f in s.data && s.data[f].origin == Settled) ==> Condemned(events))
    && (s.pc.Clearing? && HoldsPgData(s.data) ==> Condemned(events))
  }

  lemma CondemnedLater(events: seq<Event>, e: Event)
    requires Condemned(events) && !e.Outside? && e != CloneDone
    ensures Condemned(events + [e])
  {
    assert (events + [e])[..|events|] == events;
  }

  lemma InspectCondemns(s: State, events: seq<Event>, e: Event)
    requires Inv(s, events) && Enabled(s, e) && e.Inspect? && Step(s, e).pc.Clearing? && HoldsPgData(s.data)
    ensures Condemned(events + [e])
  {
    SinceLater(events, HearLeaderLineage(s.pc.leader), e);
  }

  lemma StepKeepsRemains(s: State, events: seq<Event>, e: Event)
    requires Inv(s, events) && Remains(s, events) && Enabled(s, e) && (e.Outside? ==> Tidy(e.data))
    ensures Remains(Step(s, e), events + [e])
  {
    if Condemned(events) && !e.Outside? && e != CloneDone { CondemnedLater(events, e); }
    if e.Inspect? && Step(s, e).pc.Clearing? && HoldsPgData(s.data) { InspectCondemns(s, events, e); }
  }

  lemma {:induction false} RunsKeepRemains(s: State, events: seq<Event>)
    requires Init(s) && Tidy(s.data) && IsRun(s, events) && TidyOutside(events)
    ensures Remains(After(s, events), events)
  {
    if events != [] {
      var init, e := events[..|events| - 1], events[|events| - 1];
      RunsKeepRemains(s, init);
      RunsKeepInv(s, init);
      assert e in events;
      StepKeepsRemains(After(s, init), init, e);
      assert events == init + [e];
    }
  }

  /** Every file a join ever deletes was left by an unfinished clone, or belongs to
      a directory that a join proved superseded, possibly before a crash, and that
      nothing has filled since. */
  lemma {:induction false} OnlyRemainsAreDeleted(s: State, events: seq<Event>, f: File)
    requires Init(s) && Tidy(s.data) && IsRun(s, events) && TidyOutside(events)
    requires Enabled(After(s, events), Delete(f))
    ensures After(s, events).data[f].origin.Clone? || Condemned(events)
  {
    RunsKeepInv(s, events);
    RunsKeepRemains(s, events);
  }

  // ----- When a stopped node can join again -----

  /** Complete by its `PG_VERSION`, but with no control file to read a lineage from. */
  predicate Stranded(data: DataDir) {
    PgVersion in data && PgControl !in data
  }

  predicate Untouched(events: seq<Event>) {
    forall e | e in events :: !e.Outside?
  }

  /** The steps of a full join before anything is registered, cleared or cloned. */
  predicate Refusing(pc: Pc) {
    pc == Down || pc == Starting || pc == FetchLineage
      || ((pc.Discover? || pc.Inspecting? || pc.CheckEmpty?) && pc.full)
  }

  lemma StrandedStep(s: State, e: Event)
    requires Enabled(s, e) && !e.Outside? && RaftDb !in s.raft && Stranded(s.data) && Refusing(s.pc)
    ensures var next := Step(s, e); next.data == s.data && next.raft == s.raft && Refusing(next.pc)
  {
  }

  /** A stranded node without Raft state refuses every join, whatever it is told. */
  lemma {:induction false} StrandedNeverJoins(s: State, events: seq<Event>)
    requires s.pc == Down && RaftDb !in s.raft && Stranded(s.data)
    requires IsRun(s, events) && Untouched(events)
    ensures var now := After(s, events);
            now.data == s.data && now.raft == s.raft && Refusing(now.pc)
  {
    if events != [] {
      var init, e := events[..|events| - 1], events[|events| - 1];
      StrandedNeverJoins(s, init);
      assert e in events;
      StrandedStep(After(s, init), e);
    }
  }

  lemma Extend(s: State, events: seq<Event>, e: Event) returns (more: seq<Event>)
    requires IsRun(s, events) && Untouched(events) && Enabled(After(s, events), e) && !e.Outside?
    ensures IsRun(s, more) && Untouched(more) && After(s, more) == Step(After(s, events), e)
    ensures more == events + [e]
  {
    more := events + [e];
    assert more[..|events|] == events;
  }

  /** The same, when `heard` has happened. */
  lemma ExtendAfter(s: State, events: seq<Event>, e: Event, heard: Event) returns (more: seq<Event>)
    requires IsRun(s, events) && Untouched(events) && Enabled(After(s, events), e) && !e.Outside? && e != StartUp
    requires Since(events, heard)
    ensures IsRun(s, more) && Untouched(more) && After(s, more) == Step(After(s, events), e) && Since(more, heard)
  {
    more := Extend(s, events, e);
    SinceLater(events, heard, e);
  }

  /** The lineage an inspection can read, when it reads what is there. */
  function BestRead(data: DataDir): Option<int> {
    if PgVersion in data && PgControl in data then Some(data[PgControl].lineage) else None
  }

  /** A full join up to the inspection of the data directory. */
  lemma JoinReachesInspection(s: State, lineage: int) returns (events: seq<Event>)
    requires s.pc == Down && RaftDb !in s.raft
    ensures IsRun(s, events) && Untouched(events) && Since(events, HearLeaderLineage(Some(lineage)))
    ensures After(s, events) == s.(pc := Inspecting(true, Some(lineage)), pid := s.pid + 1)
  {
    events := Extend(s, [], StartUp);
    events := Extend(s, events, LookForRaft);
    events := Extend(s, events, FindLeader);
    var heard := HearLeaderLineage(Some(lineage));
    SinceLater(events, heard, heard);
    events := Extend(s, events, heard);
  }

  lemma JoinReachesCheck(s: State, lineage: int) returns (events: seq<Event>)
    requires s.pc == Down && RaftDb !in s.raft && !Stranded(s.data)
    requires BestRead(s.data).Some? ==> BestRead(s.data).value == lineage
    ensures IsRun(s, events) && Untouched(events) && Since(events, HearLeaderLineage(Some(lineage)))
    ensures var now := After(s, events); now.pc == CheckEmpty(true) && now.data == map[]
  {
    var heard := HearLeaderLineage(Some(lineage));
    events := JoinReachesInspection(s, lineage);
    events := ExtendAfter(s, events, Inspect(BestRead(s.data)), heard);
    if s.data != map[] {
      events := ClearAll(s, events, heard);
      events := ExtendAfter(s, events, Cleared, heard);
    }
  }

  lemma ClearAll(s: State, begun: seq<Event>, heard: Event) returns (events: seq<Event>)
    requires IsRun(s, begun) && Untouched(begun) && After(s, begun).pc.Clearing? && Since(begun, heard)
    ensures IsRun(s, events) && Untouched(events) && Since(events, heard)
    ensures After(s, events) == After(s, begun).(data := map[])
  {
    events := begun;
    while After(s, events).data != map[]
      invariant IsRun(s, events) && Untouched(events) && Since(events, heard)
      invariant After(s, events) == After(s, begun).(data := After(s, events).data)
      decreases |After(s, events).data|
    {
      ghost var data := After(s, events).data;
      assert data.Keys != {};
      var f :| f in data.Keys;
      events := ExtendAfter(s, events, Delete(f), heard);
      assert (data - {f}).Keys == data.Keys - {f};
      assert |data - {f}| == |(data - {f}).Keys| && |data| == |data.Keys|;
    }
  }

  lemma JoinReachesClone(s: State, lineage: int) returns (events: seq<Event>)
    requires s.pc == Down && RaftDb !in s.raft && !Stranded(s.data)
    requires BestRead(s.data).Some? ==> BestRead(s.data).value == lineage
    ensures IsRun(s, events) && Untouched(events) && Since(events, HearLeaderLineage(Some(lineage)))
    ensures var now := After(s, events); now.pc == Cloning(true, 1) && now.data == map[]
  {
    var heard := HearLeaderLineage(Some(lineage));
    events := JoinReachesCheck(s, lineage);
    events := ExtendAfter(s, events, CheckIsEmpty, heard);
    events := ExtendAfter(s, events, Registered, heard);
  }

  /** Any other node without Raft state can join: its process hears the lineage of the
      leader, which is its own if it has one, and comes up with a clone of that lineage. */
  lemma OthersCanJoin(s: State, lineage: int) returns (events: seq<Event>)
    requires s.pc == Down && RaftDb !in s.raft && !Stranded(s.data)
    requires BestRead(s.data).Some? ==> BestRead(s.data).value == lineage
    ensures IsRun(s, events) && Untouched(events) && Since(events, HearLeaderLineage(Some(lineage)))
    ensures var now := After(s, events); now.pc == Running && HoldsPgData(now.data) && Reads(now.data, Some(lineage))
  {
    var heard := HearLeaderLineage(Some(lineage));
    events := JoinReachesClone(s, lineage);
    events := ExtendAfter(s, events, CloneWrites(PgVersion, 0), heard);
    events := ExtendAfter(s, events, CloneWrites(PgControl, lineage), heard);
    events := ExtendAfter(s, events, CloneDone, heard);
  }

  /** A node that has its Raft state comes up when no peer can be reached. */
  lemma ResumesAlone(s: State) returns (events: seq<Event>)
    requires s.pc == Down && RaftDb in s.raft
    ensures IsRun(s, events) && Untouched(events) && After(s, events).pc == Running
  {
    events := Extend(s, [], StartUp);
    events := Extend(s, events, LookForRaft);
    events := Extend(s, events, HearMembership(Unreachable));
  }

  /** Without outside help a stopped node can come up again if and only if it has its
      Raft state or its directory is not `PG_VERSION` without control file. */
  lemma CanJoinIff(s: State)
    requires s.pc == Down
    ensures (exists events :: IsRun(s, events) && Untouched(events) && After(s, events).pc == Running) <==>
            RaftDb in s.raft || !Stranded(s.data)
  {
    if RaftDb in s.raft {
      var events := ResumesAlone(s);
    } else if Stranded(s.data) {
      forall events | IsRun(s, events) && Untouched(events) ensures After(s, events).pc != Running {
        StrandedNeverJoins(s, events);
      }
    } else {
      var events := OthersCanJoin(s, if BestRead(s.data).Some? then BestRead(s.data).value else 0);
    }
  }

  /** A join of an empty node that is killed after its clone wrote `PG_VERSION`
      and before it wrote the control file leaves the node stranded. */
  lemma KilledCloneStrands(s: State) returns (events: seq<Event>)
    requires s.pc == Down && RaftDb !in s.raft && s.data == map[]
    ensures IsRun(s, events) && Untouched(events)
    ensures var now := After(s, events); now.pc == Down && RaftDb !in now.raft && Stranded(now.data)
  {
    events := JoinReachesClone(s, 0);
    KeepsRaftGone(s, events);
    events := Extend(s, events, CloneWrites(PgVersion, 0));
    events := Extend(s, events, Stop);
  }

  lemma {:induction false} KeepsRaftGone(s: State, events: seq<Event>)
    requires IsRun(s, events) && Untouched(events) && RaftDb !in s.raft
    ensures RaftDb !in After(s, events).raft
  {
    if events != [] {
      assert events[|events| - 1] in events;
      KeepsRaftGone(s, events[..|events| - 1]);
    }
  }

  /** A join killed while it clears superseded data, the control file first, leaves
      the node stranded as well. */
  lemma KilledClearStrands(s: State) returns (events: seq<Event>)
    requires s.pc == Down && RaftDb !in s.raft && PgVersion in s.data && PgControl in s.data
    ensures IsRun(s, events) && Untouched(events)
    ensures var now := After(s, events); now.pc == Down && RaftDb !in now.raft && Stranded(now.data)
  {
    events := JoinReachesInspection(s, s.data[PgControl].lineage);
    events := Extend(s, events, Inspect(BestRead(s.data)));
    events := Extend(s, events, Delete(PgControl));
    events := Extend(s, events, Stop);
  }

  // ----- Members that lost their data -----

  predicate Whole(data: DataDir) {
    PgVersion in data && PgControl in data
  }

  /** The provisioning of a current member up to the inspection of its data directory. */
  lemma ProvisioningReachesInspection(s: State) returns (events: seq<Event>)
    requires s.pc == Down && RaftDb in s.raft && !HoldsPgData(s.data)
    ensures IsRun(s, events) && Untouched(events) && Since(events, HearMembership(Member))
    ensures After(s, events) == s.(pc := Inspecting(false, None), pid := s.pid + 1)
  {
    events := Extend(s, [], StartUp);
    events := Extend(s, events, LookForRaft);
    var heard := HearMembership(Member);
    SinceLater(events, heard, heard);
    events := Extend(s, events, heard);
    events := ExtendAfter(s, events, FindLeader, heard);
  }

  lemma ProvisioningReachesCheck(s: State) returns (events: seq<Event>)
    requires s.pc == Down && RaftDb in s.raft && !HoldsPgData(s.data)
    ensures IsRun(s, events) && Untouched(events)
    ensures After(s, events) == s.(pc := CheckEmpty(false), pid := s.pid + 1, data := map[])
  {
    var heard := HearMembership(Member);
    events := ProvisioningReachesInspection(s);
    events := ExtendAfter(s, events, Inspect(None), heard);
    if s.data != map[] {
      events := ClearAll(s, events, heard);
      events := Extend(s, events, Cleared);
    }
  }

  /** The provisioning of a current member, killed after its clone wrote `PG_VERSION`. */
  lemma KilledProvisioning(s: State) returns (events: seq<Event>)
    requires s.pc == Down && RaftDb in s.raft && !HoldsPgData(s.data)
    ensures IsRun(s, events) && Untouched(events)
    ensures var now := After(s, events); now.pc == Down && now.raft == s.raft && Stranded(now.data)
  {
    events := ProvisioningReachesCheck(s);
    events := Extend(s, events, CheckIsEmpty);
    events := Extend(s, events, CloneWrites(PgVersion, 0));
    events := Extend(s, events, Stop);
  }

  /** The node is told that it is a member and runs on a directory without control file. */
  ghost predicate ResumesStranded(s: State, events: seq<Event>) {
    && IsRun(s, events) && Untouched(events) && events != [] && events[|events| - 1] == HearMembership(Member)
    && After(s, events).pc == Running && Stranded(After(s, events).data)
  }

  lemma StrandedResumes(s: State, begun: seq<Event>) returns (events: seq<Event>)
    requires IsRun(s, begun) && Untouched(begun)
    requires var now := After(s, begun); now.pc == Down && RaftDb in now.raft && Stranded(now.data)
    ensures ResumesStranded(s, events)
  {
    events := Extend(s, begun, StartUp);
    events := Extend(s, events, LookForRaft);
    events := Extend(s, events, HearMembership(Member));
  }

  /** Membership is only asked with Raft state, and with Raft state a whole directory stays whole. */
  predicate WholeWhileRaft(s: State) {
    && (s.pc == AskMembership ==> RaftDb in s.raft)
    && (RaftDb in s.raft ==>
          && Whole(s.data)
          && (s.pc in {Down, Starting, AskMembership, CompareLineage, WipeRaft, Running}))
  }

  lemma WholeStep(s: State, e: Event)
    requires WholeWhileRaft(s) && Enabled(s, e) && !e.Outside?
    ensures WholeWhileRaft(Step(s, e))
  {
  }

  lemma {:induction false} WholeStays(s: State, events: seq<Event>)
    requires WholeWhileRaft(s) && IsRun(s, events) && Untouched(events)
    ensures WholeWhileRaft(After(s, events))
  {
    if events != [] {
      var init, e := events[..|events| - 1], events[|events| - 1];
      WholeStays(s, init);
      assert e in events;
      WholeStep(After(s, init), e);
    }
  }

  lemma WholeNeverResumesStranded(s: State, events: seq<Event>)
    requires s.pc == Down && (RaftDb in s.raft ==> Whole(s.data))
    ensures !ResumesStranded(s, events)
  {
    if IsRun(s, events) && Untouched(events) && events != [] && events[|events| - 1] == HearMembership(Member) {
      var init := events[..|events| - 1];
      assert Untouched(init) by { assert forall e | e in init :: e in events; }
      WholeStays(s, init);
    }
  }

  /** A stopped node can come to run, as the member it is told to be, on a directory
      without control file, if and only if it has its Raft state and its directory is
      not whole to begin with. */
  lemma MemberResumesStrandedIff(s: State)
    requires s.pc == Down
    ensures (exists events :: ResumesStranded(s, events)) <==> RaftDb in s.raft && !Whole(s.data)
  {
    if RaftDb in s.raft && !Whole(s.data) {
      var begun: seq<Event> := [];
      if !HoldsPgData(s.data) { begun := KilledProvisioning(s); }
      var events := StrandedResumes(s, begun);
    } else {
      forall events ensures !ResumesStranded(s, events) { WholeNeverResumesStranded(s, events); }
    }
  }

  // ----- What a node keeps -----

  /** No leader ever names the lineage that the directory can be read to have. */
  predicate OnlyForeignLeaders(data: DataDir, events: seq<Event>) {
    forall e | e in events && e.HearLeaderLineage? && e.leader.Some? :: !Reads(data, e.leader)
  }

  /** The process is nowhere near its data, and no leader has named the lineage of it. */
  predicate HandsOff(s: State) {
    && (Refusing(s.pc) || s.pc == Running || s.pc == AskMembership || s.pc == CompareLineage || s.pc == WipeRaft)
    && (s.pc.Inspecting? && s.pc.leader.Some? ==> !Reads(s.data, s.pc.leader))
  }

  lemma HandsOffStep(s: State, e: Event)
    requires Enabled(s, e) && !e.Outside? && HoldsPgData(s.data) && HandsOff(s)
    requires e.HearLeaderLineage? && e.leader.Some? ==> !Reads(s.data, e.leader)
    ensures Step(s, e).data == s.data && HandsOff(Step(s, e))
  {
  }

  /** A complete data directory survives any starts, stops and answers, as long as no
      leader of its own lineage speaks. */
  lemma {:induction false} ForeignAnswersKeepData(s: State, events: seq<Event>)
    requires s.pc == Down && HoldsPgData(s.data) && IsRun(s, events) && Untouched(events)
             && OnlyForeignLeaders(s.data, events)
    ensures After(s, events).data == s.data && HandsOff(After(s, events))
  {
    if events != [] {
      var init, e := events[..|events| - 1], events[|events| - 1];
      ForeignAnswersKeepData(s, init);
      assert e in events;
      HandsOffStep(After(s, init), e);
    }
  }

  /** Whenever a peer says that the node is not a member, the lineages are known to differ. */
  predicate OnlyForeignRemovals(events: seq<Event>) {
    forall e | e in events && e.HearLineage? :: e.local.Some? && e.peer.Some? && e.local != e.peer
  }

  /** The node joins as a new member. */
  predicate JoinsAnew(pc: Pc) {
    || pc == FetchLineage || pc == Register
    || ((pc.Discover? || pc.Inspecting? || pc.Clearing? || pc.CheckEmpty? || pc.Cloning? || pc.Discarding?) && pc.full)
  }

  lemma RaftKeptStep(s: State, e: Event)
    requires Enabled(s, e) && !e.Outside? && s.pc != WipeRaft
    requires e.HearLineage? ==> e.local.Some? && e.peer.Some? && e.local != e.peer
    ensures Step(s, e).raft == s.raft && Step(s, e).pc != WipeRaft
    ensures RaftDb in s.raft && !JoinsAnew(s.pc) ==> !JoinsAnew(Step(s, e).pc)
  {
  }

  /** Then no Raft file is ever lost, and a node that has its Raft state resumes, or is
      provisioned again as the member it is, but never joins anew. */
  lemma {:induction false} ForeignAnswersKeepRaft(s: State, events: seq<Event>)
    requires s.pc == Down && IsRun(s, events) && Untouched(events) && OnlyForeignRemovals(events)
    ensures After(s, events).raft == s.raft && After(s, events).pc != WipeRaft
    ensures RaftDb in s.raft ==> !JoinsAnew(After(s, events).pc)
  {
    if events != [] {
      var init, e := events[..|events| - 1], events[|events| - 1];
      ForeignAnswersKeepRaft(s, init);
      assert e in events;
      RaftKeptStep(After(s, init), e);
    }
  }

  // ----- The retry loop -----

  /** `retry_join_step`, with what each attempt answers: nothing when it succeeds,
      else its error. `asked` counts the attempts made. */
  method RetryJoinStep(attempts: nat, answer: nat -> Option<string>) returns (error: Option<string>, asked: nat)
    ensures 1 <= asked <= (if attempts == 0 then 1 else attempts)
    ensures forall n | 1 <= n < asked :: answer(n).Some?
    ensures error == answer(asked)
    ensures error.Some? ==> asked == (if attempts == 0 then 1 else attempts)
  {
    var limit := if attempts == 0 then 1 else attempts;
    error, asked := None, 0;
    for n := 1 to limit + 1
      invariant asked == n - 1
      invariant asked > 0 ==> error == answer(asked)
      invariant forall k | 1 <= k < n :: answer(k).Some?
    {
      asked := n;
      error := answer(n);
      if error == None {
        return;
      }
    }
  }

  // ----- A removed node that rejoins -----

  /** The lineages of this node and of the peer that was asked are both known, and differ. */
  predicate KnownToDiffer(local: Option<int>, peer: Option<int>) {
    local.Some? && peer.Some? && local != peer
  }

  /** A node that is told it was removed keeps its Raft state and resumes exactly if the
      peer is known to be of another lineage, and wipes it otherwise. */
  lemma RemovalIsHeededIff(s: State, local: Option<int>, peer: Option<int>)
    requires s.pc == CompareLineage && Enabled(s, HearLineage(local, peer))
    ensures var s' := Step(s, HearLineage(local, peer));
            && s' == s.(pc := s'.pc) && (s'.pc == Running || s'.pc == WipeRaft)
            && (s'.pc == Running <==> KnownToDiffer(local, peer))
  {
  }

  lemma RemovedReachesComparison(s: State) returns (events: seq<Event>)
    requires s.pc == Down && RaftDb in s.raft
    ensures IsRun(s, events) && Untouched(events)
    ensures After(s, events) == s.(pc := CompareLineage, pid := s.pid + 1)
  {
    events := Extend(s, [], StartUp);
    events := Extend(s, events, LookForRaft);
    events := Extend(s, events, HearMembership(NotMember));
  }

  lemma RemovedReachesWipe(s: State, local: Option<int>, peer: Option<int>) returns (events: seq<Event>)
    requires s.pc == Down && RaftDb in s.raft && Reads(s.data, local) && !KnownToDiffer(local, peer)
    ensures IsRun(s, events) && Untouched(events) && Since(events, HearLineage(local, peer))
    ensures After(s, events) == s.(pc := WipeRaft, pid := s.pid + 1)
  {
    var heard := HearLineage(local, peer);
    events := RemovedReachesComparison(s);
    RemovalIsHeededIff(After(s, events), local, peer);
    SinceLater(events, heard, heard);
    events := Extend(s, events, heard);
  }

  lemma WipeAll(s: State, begun: seq<Event>, heard: Event) returns (events: seq<Event>)
    requires IsRun(s, begun) && Untouched(begun) && After(s, begun).pc == WipeRaft && Since(begun, heard)
    ensures IsRun(s, events) && Untouched(events) && Since(events, heard)
    ensures After(s, events) == After(s, begun).(raft := {})
  {
    events := begun;
    while After(s, events).raft != {}
      invariant IsRun(s, events) && Untouched(events) && Since(events, heard)
      invariant After(s, events) == After(s, begun).(raft := After(s, events).raft)
      decreases |After(s, events).raft|
    {
      var f :| f in After(s, events).raft;
      events := ExtendAfter(s, events, DeleteRaft(f), heard);
    }
  }

  /** A removed node rejoins from a clean slate, whatever it read of its own lineage and
      also if the peer serves none, unless the two are known to differ. */
  lemma RemovedNodeRejoins(s: State, local: Option<int>, peer: Option<int>) returns (events: seq<Event>)
    requires s.pc == Down && RaftDb in s.raft && Reads(s.data, local) && !KnownToDiffer(local, peer)
    ensures IsRun(s, events) && Untouched(events) && Since(events, HearLineage(local, peer))
    ensures After(s, events) == s.(pc := Discover(true), pid := s.pid + 1, raft := {})
  {
    events := RemovedReachesWipe(s, local, peer);
    events := WipeAll(s, events, HearLineage(local, peer));
    events := ExtendAfter(s, events, RaftWiped, HearLineage(local, peer));
  }

  // ----- Clone attempts -----

  /** How many clones have failed since the process last started. */
  function Failures(events: seq<Event>): nat {
    if events == [] || events[|events| - 1] == StartUp then 0
    else Failures(events[..|events| - 1]) + if events[|events| - 1] == CloneFails then 1 else 0
  }

  ghost predicate Counted(s: State, events: seq<Event>) {
    && (s.pc.Cloning? ==> s.pc.attempt == Failures(events) + 1)
    && (s.pc.Discarding? ==> s.pc.attempt == Failures(events))
    && (s.pc.Cloning? || s.pc.Discarding? || s.pc == Down || s.pc == Running || Failures(events) == 0)
  }

  lemma StepKeepsCounted(s: State, events: seq<Event>, e: Event)
    requires Counted(s, events) && Enabled(s, e)
    ensures Counted(Step(s, e), events + [e])
  {
    assert (events + [e])[..|events|] == events;
  }

  lemma {:induction false} RunsKeepCounted(s: State, events: seq<Event>)
    requires s.pc == Down && IsRun(s, events)
    ensures Counted(After(s, events), events)
  {
    if events != [] {
      var init, e := events[..|events| - 1], events[|events| - 1];
      RunsKeepCounted(s, init);
      StepKeepsCounted(After(s, init), init, e);
      assert events == init + [e];
    }
  }

  /** A clone that failed is followed by another, once its remains are discarded, exactly
      if this is a whole join and fewer than twelve have failed; else the process ends. */
  lemma RetriesIff(s: State, events: seq<Event>, complete: bool)
    requires s.pc == Down && IsRun(s, events) && Enabled(After(s, events), Discarded(complete))
    ensures var now, next := After(s, events), Step(After(s, events), Discarded(complete));
            && (next.pc.Cloning? <==> now.pc.full && Failures(events) < 12) && (!next.pc.Cloning? ==> next.pc == Down)
            && next.data == now.data && next.raft == now.raft
  {
    RunsKeepCounted(s, events);
  }

  // ----- Raft files that outlive their store -----

  /** A join anew with Raft files around. */
  ghost predicate JoinsOverStale(s: State, events: seq<Event>) {
    IsRun(s, events) && Untouched(events) && JoinsAnew(After(s, events).pc) && After(s, events).raft != {}
  }

  lemma StaleStep(s: State, e: Event)
    requires Enabled(s, e) && !e.Outside? && (JoinsAnew(s.pc) ==> RaftDb !in s.raft)
    ensures Step(s, e).raft <= s.raft && (JoinsAnew(Step(s, e).pc) ==> RaftDb !in Step(s, e).raft)
  {
  }

  lemma {:induction false} StaleFilesWereThere(s: State, events: seq<Event>)
    requires s.pc == Down && IsRun(s, events) && Untouched(events)
    ensures var now := After(s, events); now.raft <= s.raft && (JoinsAnew(now.pc) ==> RaftDb !in now.raft)
  {
    if events != [] {
      var init, e := events[..|events| - 1], events[|events| - 1];
      StaleFilesWereThere(s, init);
      assert e in events;
      StaleStep(After(s, init), e);
    }
  }

  /** A wipe killed after `raft.db` went, and the start after it. */
  lemma KilledWipe(s: State) returns (events: seq<Event>)
    requires s.pc == Down && s.raft - {RaftDb} != {}
    ensures JoinsOverStale(s, events)
  {
    events := [];
    if RaftDb in s.raft {
      events := Extend(s, events, StartUp);
      events := Extend(s, events, LookForRaft);
      events := Extend(s, events, HearMembership(NotMember));
      events := Extend(s, events, HearLineage(None, None));
      events := Extend(s, events, DeleteRaft(RaftDb));
      events := Extend(s, events, Stop);
    }
    events := Extend(s, events, StartUp);
    events := Extend(s, events, LookForRaft);
  }

  /** A stopped node can come to join anew over stale Raft files if and only if it has
      a Raft file besides `raft.db`. */
  lemma JoinsOverStaleIff(s: State)
    requires s.pc == Down
    ensures (exists events :: JoinsOverStale(s, events)) <==> s.raft - {RaftDb} != {}
  {
    if s.raft - {RaftDb} != {} {
      var events := KilledWipe(s);
    } else {
      forall events ensures !JoinsOverStale(s, events) {
        if IsRun(s, events) && Untouched(events) { StaleFilesWereThere(s, events); }
      }
    }
  }
}
