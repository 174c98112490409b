/**
 Concurrent updates of the configuration file: load, change and atomic replacement under a
 lock, with readers that take no lock, failing system calls, killed processes and power loss.
 */
module ConfigStore {
  import opened ConfigTables
  import opened Utf8

  /** The text of a file: not a whole configuration, or one that reads as a table. */
  datatype Content = Partial | Whole(table: Entries)

  /** How far the update of one process has come; it holds the lock from `Locked` to `Renamed`. */
  datatype Phase =
    | Idle
    | Locked
    | Loaded(c: Config)
    | Changed(c: Config)
    | Writing(c: Config)
    | Written(c: Config)
    | Synced(c: Config)
    | Renamed(at: nat)
    | Succeeded(at: nat)
    | Failed
    | FailedLate
    | Dead

  /** A content the configuration path has had: whose update put it there, the configuration it
      was written from, and whether its bytes were on disk. */
  datatype Version = Version(content: Option<Content>, synced: bool, author: nat, config: Config)

  datatype State = State(
    file: Option<Content>,
    tmp: Content,
    tmpSynced: bool,
    lock: Option<nat>,
    procs: map<nat, Phase>,
    original: Option<Content>,
    versions: seq<Version>,
    durable: nat,               // how many versions are certain to survive a power loss
    acquired: seq<nat>)         // who got the lock, in order

  type Change = (nat, Config) -> Option<Config>

  datatype Action =
    | Acquire(p: nat)
    | Load(p: nat)
    | Apply(p: nat)
    | Open(p: nat, ok: bool)
    | Write(p: nat, ok: bool)
    | Sync(p: nat, ok: bool)
    | Rename(p: nat, ok: bool)
    | SyncDirectory(p: nat, ok: bool)
    | Kill(p: nat)
    | PowerLoss(kept: nat, tmp: Content)

  /** `load`: a missing file is the default configuration. */
  function Read(file: Option<Content>): Option<Config> {
    match file
    case None => Some(DEFAULT_CONFIG)
    case Some(Partial) => None
    case Some(Whole(t)) => Parse(t)
  }

  function PhaseOf(s: State, p: nat): Phase {
    if p in s.procs then s.procs[p] else Idle
  }

  predicate Holding(f: Phase) {
    f.Locked? || f.Loaded? || f.Changed? || f.Writing? || f.Written? || f.Synced? || f.Renamed?
  }

  predicate Final(f: Phase) {
    f.Succeeded? || f.Failed? || f.FailedLate? || f.Dead?
  }

  function Go(s: State, p: nat, f: Phase): State {
    s.(procs := s.procs[p := f])
  }

  /** The update ends; dropping the file handle releases the lock. */
  function End(s: State, p: nat, f: Phase): State {
    s.(procs := s.procs[p := f], lock := None)
  }

  /** What the path holds after the versions up to now. */
  function Latest(original: Option<Content>, versions: seq<Version>): Option<Content> {
    if versions == [] then original else versions[|versions| - 1].content
  }

  function Replace(s: State, p: nat, c: Config): State {
    s.(file := Some(s.tmp), tmp := Partial, tmpSynced := false,
       versions := s.versions + [Version(Some(s.tmp), s.tmpSynced, p, c)],
       procs := s.procs[p := Renamed(|s.versions|)])
  }

  /** What a machine finds after losing power: some version not older than the durable one,
      torn when its bytes were not on disk. */
  function Reboot(s: State, kept: nat, tmp: Content): State
    requires s.durable <= kept <= |s.versions|
  {
    var versions := s.versions[..kept];
    s.(file := if versions != [] && !versions[kept - 1].synced then Some(Partial) else Latest(s.original, versions),
       tmp := tmp, tmpSynced := false, lock := None,
       procs := map p | p in s.procs :: if Final(s.procs[p]) then s.procs[p] else Dead,
       versions := versions, durable := kept)
  }

  /** One step; an action that cannot happen changes nothing. */
  function Step(ch: Change, s: State, a: Action): State {
    match a
    case Acquire(p) =>
      if PhaseOf(s, p).Idle? && s.lock.None? then
        s.(lock := Some(p), procs := s.procs[p := Locked], acquired := s.acquired + [p])
      else s
    case Load(p) =>
      if !PhaseOf(s, p).Locked? then s
      else if Read(s.file).None? then End(s, p, Failed)
      else Go(s, p, Loaded(Read(s.file).value))
    case Apply(p) =>
      if !PhaseOf(s, p).Loaded? then s
      else if ch(p, PhaseOf(s, p).c).None? then End(s, p, Failed)
      else Go(s, p, Changed(ch(p, PhaseOf(s, p).c).value))
    case Open(p, ok) =>
      if !PhaseOf(s, p).Changed? then s
      else if !ok then End(s, p, Failed)
      else Go(s.(tmp := Partial, tmpSynced := false), p, Writing(PhaseOf(s, p).c))
    case Write(p, ok) =>
      if !PhaseOf(s, p).Writing? then s
      else if !ok || Serialize(PhaseOf(s, p).c).None? then End(s, p, Failed)
      else Go(s.(tmp := Whole(Serialize(PhaseOf(s, p).c).value)), p, Written(PhaseOf(s, p).c))
    case Sync(p, ok) =>
      if !PhaseOf(s, p).Written? then s
      else if ok then Go(s.(tmpSynced := true), p, Synced(PhaseOf(s, p).c)) else End(s, p, Failed)
    case Rename(p, ok) =>
      if !PhaseOf(s, p).Synced? then s
      else if ok then Replace(s, p, PhaseOf(s, p).c) else End(s, p, Failed)
    case SyncDirectory(p, ok) =>
      if !PhaseOf(s, p).Renamed? then s
      else if ok then End(s.(durable := |s.versions|), p, Succeeded(PhaseOf(s, p).at))
      else End(s, p, FailedLate)
    case Kill(p) =>
      if Final(PhaseOf(s, p)) then s
      else s.(procs := s.procs[p := Dead], lock := if s.lock == Some(p) then None else s.lock)
    case PowerLoss(kept, tmp) =>
      if s.durable <= kept <= |s.versions| then Reboot(s, kept, tmp) else s
  }

  function Start(original: Option<Content>, tmp: Content): State {
    State(original, tmp, false, None, map[], original, [], 0, [])
  }

  function Run(ch: Change, s: State, actions: seq<Action>): State {
    if actions == [] then s
    else Step(ch, Run(ch, s, actions[..|actions| - 1]), actions[|actions| - 1])
  }

  // ----- what every step keeps

  /** Version `i` is the change of the process that wrote it, applied to what was there before. */
  ghost predicate Link(ch: Change, original: Option<Content>, versions: seq<Version>, i: nat)
    requires i < |versions|
  {
    var before := Read(Latest(original, versions[..i]));
    && before.Some? && ch(versions[i].author, before.value) == Some(versions[i].config)
    && Serialize(versions[i].config).Some?
    && versions[i].content == Some(Whole(Serialize(versions[i].config).value))
    && versions[i].synced
  }

  /** What a process's phase says about the shared files. */
  ghost predicate Agrees(ch: Change, s: State, p: nat) {
    match PhaseOf(s, p)
    case Loaded(c) => Read(s.file) == Some(c)
    case Changed(c) => Pending(ch, s, p, c)
    case Writing(c) => Pending(ch, s, p, c)
    case Written(c) => Pending(ch, s, p, c) && Serialize(c).Some? && s.tmp == Whole(Serialize(c).value)
    case Synced(c) => Pending(ch, s, p, c) && Serialize(c).Some? && s.tmp == Whole(Serialize(c).value) && s.tmpSynced
    case Renamed(at) => at + 1 == |s.versions| && s.versions[at].author == p
    case Succeeded(at) => at < s.durable <= |s.versions| && s.versions[at].author == p
    case _ => true
  }

  ghost predicate Pending(ch: Change, s: State, p: nat, c: Config) {
    Read(s.file).Some? && ch(p, Read(s.file).value) == Some(c)
  }

  ghost predicate Exclusive(s: State) {
    forall p: nat :: Holding(PhaseOf(s, p)) <==> s.lock == Some(p)
  }

  ghost predicate Linked(ch: Change, s: State) {
    forall i :: 0 <= i < |s.versions| ==> Link(ch, s.original, s.versions, i)
  }

  ghost predicate Inv(ch: Change, s: State) {
    && s.durable <= |s.versions|
    && s.file == Latest(s.original, s.versions)
    && Exclusive(s) && Linked(ch, s)
    && forall p :: Agrees(ch, s, p)
  }

  lemma StartInv(ch: Change, original: Option<Content>, tmp: Content)
    ensures Inv(ch, Start(original, tmp))
  {
  }

  /** A process that does not hold the lock says nothing about the files being written. */
  lemma OthersAgree(ch: Change, s: State, s': State, q: nat)
    requires Inv(ch, s) && s.lock != Some(q) && PhaseOf(s', q) == PhaseOf(s, q)
    requires s.durable <= s'.durable <= |s'.versions| && s.versions <= s'.versions
    ensures Agrees(ch, s', q)
  {
    hide Linked, Read, Serialize;
    assert Agrees(ch, s, q) && !Holding(PhaseOf(s, q));
  }

  /** The holder goes on, or ends and releases the lock; the path is as it was. */
  lemma HolderMoves(ch: Change, s: State, s': State, p: nat, f: Phase)
    requires Inv(ch, s) && s.lock == Some(p)
    requires s'.procs == s.procs[p := f] && s'.lock == (if Holding(f) then Some(p) else None)
    requires s'.file == s.file && s'.versions == s.versions && s'.original == s.original
    requires s.durable <= s'.durable <= |s'.versions|
    requires Agrees(ch, s', p)
    ensures Inv(ch, s')
  {
    hide Agrees, Link;
    forall q | q != p ensures Agrees(ch, s', q) {
      assert PhaseOf(s', q) == PhaseOf(s, q);
      OthersAgree(ch, s, s', q);
    }
  }

  lemma LinkFrame(ch: Change, original: Option<Content>, versions: seq<Version>, more: seq<Version>, i: nat)
    requires i < |versions| && versions <= more
    ensures Link(ch, original, versions, i) <==> Link(ch, original, more, i)
  {
    hide Read, Serialize, Latest;
    assert versions[..i] == more[..i];
  }

  lemma ReplaceKeeps(ch: Change, s: State, p: nat)
    requires Inv(ch, s) && PhaseOf(s, p).Synced?
    ensures Inv(ch, Replace(s, p, PhaseOf(s, p).c))
  {
    hide Read, Serialize;
    var s' := Replace(s, p, PhaseOf(s, p).c);
    assert Agrees(ch, s, p) && Holding(PhaseOf(s, p));
    forall i | 0 <= i < |s'.versions| ensures Link(ch, s.original, s'.versions, i) {
      if i < |s.versions| {
        LinkFrame(ch, s.original, s.versions, s'.versions, i);
      } else {
        assert s'.versions[..i] == s.versions;
      }
    }
    forall q ensures Agrees(ch, s', q) {
      if q != p {
        OthersAgree(ch, s, s', q);
      }
    }
  }

  lemma RebootKeeps(ch: Change, s: State, kept: nat, tmp: Content)
    requires Inv(ch, s) && s.durable <= kept <= |s.versions|
    ensures Inv(ch, Reboot(s, kept, tmp))
  {
    hide Read, Serialize;
    var s' := Reboot(s, kept, tmp);
    forall i | 0 <= i < kept ensures Link(ch, s.original, s'.versions, i) {
      LinkFrame(ch, s.original, s'.versions, s.versions, i);
    }
    if kept > 0 {
      assert Link(ch, s.original, s'.versions, kept - 1);
    }
    forall q ensures Agrees(ch, s', q) {
      assert Agrees(ch, s, q);
    }
  }

  lemma KillKeeps(ch: Change, s: State, p: nat)
    requires Inv(ch, s) && !Final(PhaseOf(s, p))
    ensures Inv(ch, Step(ch, s, Kill(p)))
  {
    hide Read, Serialize, Link;
    var s' := Step(ch, s, Kill(p));
    forall q ensures Agrees(ch, s', q) {
      assert Agrees(ch, s, q);
    }
  }

  lemma AcquireKeeps(ch: Change, s: State, p: nat)
    requires Inv(ch, s) && PhaseOf(s, p).Idle? && s.lock.None?
    ensures Inv(ch, Step(ch, s, Acquire(p)))
  {
    hide Read, Serialize, Link;
    var s' := Step(ch, s, Acquire(p));
    forall q ensures Agrees(ch, s', q) {
      assert Agrees(ch, s, q);
    }
  }

  /** Every step keeps the file whole and every version the change of the one before. */
  lemma StepKeeps(ch: Change, s: State, a: Action)
    requires Inv(ch, s)
    ensures Inv(ch, Step(ch, s, a))
  {
    hide Read, Serialize, Linked, Exclusive, Replace, Reboot, Latest;
    if a.PowerLoss? {
      if s.durable <= a.kept <= |s.versions| {
        RebootKeeps(ch, s, a.kept, a.tmp);
      }
    } else if a.Kill? {
      if !Final(PhaseOf(s, a.p)) {
        KillKeeps(ch, s, a.p);
      }
    } else if a.Acquire? {
      if PhaseOf(s, a.p).Idle? && s.lock.None? {
        AcquireKeeps(ch, s, a.p);
      }
    } else if a.Rename? && a.ok && PhaseOf(s, a.p).Synced? {
      ReplaceKeeps(ch, s, a.p);
    } else if Holding(PhaseOf(s, a.p)) {
      assert Agrees(ch, s, a.p);
      HolderHasLock(s, a.p);
      var s' := Step(ch, s, a);
      if s' != s {
        HolderMoves(ch, s, s', a.p, PhaseOf(s', a.p));
      }
    }
  }

  lemma HolderHasLock(s: State, p: nat)
    requires Exclusive(s) && Holding(PhaseOf(s, p))
    ensures s.lock == Some(p)
  {
  }

  lemma {:induction false} RunInv(ch: Change, original: Option<Content>, tmp: Content, actions: seq<Action>)
    ensures Inv(ch, Run(ch, Start(original, tmp), actions))
  {
    hide Inv, Step, Start;
    if actions == [] {
      StartInv(ch, original, tmp);
    } else {
      RunInv(ch, original, tmp, actions[..|actions| - 1]);
      StepKeeps(ch, Run(ch, Start(original, tmp), actions[..|actions| - 1]), actions[|actions| - 1]);
    }
  }

  // ----- the file is the successful changes in lock order

  function Authors(versions: seq<Version>): seq<nat> {
    seq(|versions|, i requires 0 <= i < |versions| => versions[i].author)
  }

  /** What the path holds when the changes of `authors` are made one after the other, each a
      whole load, change and save with nothing between. */
  function Serially(ch: Change, original: Option<Content>, authors: seq<nat>): Option<Content> {
    if authors == [] then original
    else
      var before := Read(Serially(ch, original, authors[..|authors| - 1]));
      if before.None? then Some(Partial)
      else
        var c := ch(authors[|authors| - 1], before.value);
        if c.None? || Serialize(c.value).None? then Some(Partial)
        else Some(Whole(Serialize(c.value).value))
  }

  lemma {:induction false} LinkedSerially(ch: Change, original: Option<Content>, versions: seq<Version>)
    requires forall i :: 0 <= i < |versions| ==> Link(ch, original, versions, i)
    ensures Latest(original, versions) == Serially(ch, original, Authors(versions))
  {
    hide Read, Serialize;
    if versions != [] {
      var n := |versions| - 1;
      forall i | 0 <= i < n ensures Link(ch, original, versions[..n], i) {
        LinkFrame(ch, original, versions[..n], versions, i);
      }
      LinkedSerially(ch, original, versions[..n]);
      assert Authors(versions)[..n] == Authors(versions[..n]);
      assert Link(ch, original, versions, n);
    }
  }

  ghost predicate Subsequence(a: seq<nat>, b: seq<nat>) {
    a == [] ||
    (b != [] &&
     ((a[|a| - 1] == b[|b| - 1] && Subsequence(a[..|a| - 1], b[..|b| - 1])) || Subsequence(a, b[..|b| - 1])))
  }

  lemma SubsequenceExtend(a: seq<nat>, b: seq<nat>, x: nat)
    requires Subsequence(a, b)
    ensures Subsequence(a, b + [x]) && Subsequence(a + [x], b + [x])
  {
    assert (b + [x])[..|b|] == b && (a + [x])[..|a|] == a;
  }

  lemma {:induction false} SubsequencePrefix(a: seq<nat>, b: seq<nat>)
    requires Subsequence(a, b) && a != []
    ensures Subsequence(a[..|a| - 1], b)
  {
    hide Subsequence;
    SubsequenceLast(a, b);
    var front, last := b[..|b| - 1], b[|b| - 1];
    if !Subsequence(a[..|a| - 1], front) {
      SubsequencePrefix(a, front);
    }
    SubsequenceExtend(a[..|a| - 1], front, last);
    assert front + [last] == b;
  }

  lemma SubsequenceLast(a: seq<nat>, b: seq<nat>)
    requires Subsequence(a, b) && a != []
    ensures b != [] && (Subsequence(a[..|a| - 1], b[..|b| - 1]) || Subsequence(a, b[..|b| - 1]))
  {
  }

  lemma {:induction false} SubsequenceTake(a: seq<nat>, b: seq<nat>, n: nat)
    requires Subsequence(a, b) && n <= |a|
    ensures Subsequence(a[..n], b)
    decreases |a| - n
  {
    if n < |a| {
      SubsequenceTake(a, b, n + 1);
      SubsequencePrefix(a[..n + 1], b);
      assert a[..n + 1][..n] == a[..n];
    } else {
      assert a[..n] == a;
    }
  }

  ghost predicate NoRepeat(a: seq<nat>) {
    forall i, j :: 0 <= i < j < |a| ==> a[i] != a[j]
  }

  lemma {:induction false} SubsequenceMember(a: seq<nat>, b: seq<nat>, x: nat)
    requires Subsequence(a, b) && x in a
    ensures x in b
  {
    var n := |b| - 1;
    if a[|a| - 1] == b[n] && Subsequence(a[..|a| - 1], b[..n]) {
      if x != b[n] {
        SubsequenceMember(a[..|a| - 1], b[..n], x);
      }
    } else {
      SubsequenceMember(a, b[..n], x);
    }
  }

  lemma {:induction false} SubsequenceNoRepeat(a: seq<nat>, b: seq<nat>)
    requires Subsequence(a, b) && NoRepeat(b)
    ensures NoRepeat(a)
  {
    if a != [] {
      var m, n := |a| - 1, |b| - 1;
      assert NoRepeat(b[..n]);
      if a[m] == b[n] && Subsequence(a[..m], b[..n]) {
        SubsequenceNoRepeat(a[..m], b[..n]);
        forall i | 0 <= i < m ensures a[i] != a[m] {
          assert a[..m][i] == a[i];
          SubsequenceMember(a[..m], b[..n], a[i]);
        }
        assert forall i, j :: 0 <= i < j < m ==> a[..m][i] != a[..m][j];
      } else {
        SubsequenceNoRepeat(a, b[..n]);
      }
    }
  }

  /** The holder has not yet replaced the file. */
  predicate Uncommitted(s: State) {
    s.lock.Some? && !PhaseOf(s, s.lock.value).Renamed?
  }

  /** Authors are in lock order, nobody gets the lock twice, and an update that failed before
      the rename is nowhere. */
  ghost predicate Ordered(s: State) {
    && (if Uncommitted(s) then
          && s.acquired != [] && s.acquired[|s.acquired| - 1] == s.lock.value
          && Subsequence(Authors(s.versions), s.acquired[..|s.acquired| - 1])
        else Subsequence(Authors(s.versions), s.acquired))
    && NoRepeat(s.acquired)
    && (forall p: nat :: PhaseOf(s, p).Idle? ==> p !in s.acquired)
    && (forall i :: 0 <= i < |s.versions| ==> Committed(PhaseOf(s, s.versions[i].author)))
  }

  predicate Committed(f: Phase) {
    f.Renamed? || f.Succeeded? || f.FailedLate? || f.Dead?
  }

  lemma OrderedWeakens(s: State)
    requires Ordered(s)
    ensures Subsequence(Authors(s.versions), s.acquired)
  {
    hide Subsequence, Authors, NoRepeat, Uncommitted;
    if Uncommitted(s) {
      ExtendToAll(Authors(s.versions), s.acquired);
    }
  }

  lemma ExtendToAll(a: seq<nat>, b: seq<nat>)
    requires b != [] && Subsequence(a, b[..|b| - 1])
    ensures Subsequence(a, b) && Subsequence(a + [b[|b| - 1]], b)
  {
    hide Subsequence;
    SubsequenceExtend(a, b[..|b| - 1], b[|b| - 1]);
    assert b[..|b| - 1] + [b[|b| - 1]] == b;
  }

  /** A step of the holder that leaves the path alone. */
  lemma HolderOrdered(ch: Change, s: State, s': State, p: nat, f: Phase)
    requires Inv(ch, s) && Ordered(s) && s.lock == Some(p) && !f.Idle?
    requires s'.procs == s.procs[p := f] && s'.lock == (if Holding(f) then Some(p) else None)
    requires s'.versions == s.versions && s'.acquired == s.acquired
    requires PhaseOf(s, p).Renamed? ==> Committed(f)
    requires f.Renamed? ==> PhaseOf(s, p).Renamed?
    ensures Ordered(s')
  {
    hide Subsequence, Linked, Agrees;
    OrderedWeakens(s);
    HolderIsHolding(s);
  }

  lemma HolderIsHolding(s: State)
    requires Exclusive(s) && s.lock.Some?
    ensures Holding(PhaseOf(s, s.lock.value))
  {
  }

  lemma AuthorsAppend(versions: seq<Version>, v: Version)
    ensures Authors(versions + [v]) == Authors(versions) + [v.author]
  {
  }

  lemma ReplaceOrdered(ch: Change, s: State, p: nat)
    requires Inv(ch, s) && Ordered(s) && PhaseOf(s, p).Synced?
    ensures Ordered(Replace(s, p, PhaseOf(s, p).c))
  {
    hide Inv, Subsequence, Authors, NoRepeat;
    assert s.lock == Some(p) by { SyncedHasLock(ch, s, p); }
    var s' := Replace(s, p, PhaseOf(s, p).c);
    ExtendToAll(Authors(s.versions), s.acquired);
    AuthorsAppend(s.versions, s'.versions[|s.versions|]);
  }

  lemma SyncedHasLock(ch: Change, s: State, p: nat)
    requires Inv(ch, s) && PhaseOf(s, p).Synced?
    ensures s.lock == Some(p)
  {
    hide Linked, Agrees;
    HolderHasLock(s, p);
  }

  lemma RebootOrdered(s: State, kept: nat, tmp: Content)
    requires Ordered(s) && s.durable <= kept <= |s.versions|
    ensures Ordered(Reboot(s, kept, tmp))
  {
    hide Subsequence, Latest;
    OrderedWeakens(s);
    SubsequenceTake(Authors(s.versions), s.acquired, kept);
    assert Authors(s.versions[..kept]) == Authors(s.versions)[..kept];
  }

  lemma AcquireOrdered(ch: Change, s: State, p: nat)
    requires Ordered(s) && PhaseOf(s, p).Idle? && s.lock.None?
    ensures Ordered(Step(ch, s, Acquire(p)))
  {
    hide Subsequence;
    var s' := Step(ch, s, Acquire(p));
    assert s'.acquired[..|s.acquired|] == s.acquired;
  }

  lemma KillOrdered(ch: Change, s: State, p: nat)
    requires Inv(ch, s) && Ordered(s) && !Final(PhaseOf(s, p))
    ensures Ordered(Step(ch, s, Kill(p)))
  {
    hide Subsequence, Linked, Agrees;
    OrderedWeakens(s);
  }

  lemma StepOrdered(ch: Change, s: State, a: Action)
    requires Inv(ch, s) && Ordered(s)
    ensures Ordered(Step(ch, s, a))
  {
    hide Read, Serialize, Linked, Exclusive, Replace, Reboot, Latest, Agrees, Ordered;
    if a.PowerLoss? {
      if s.durable <= a.kept <= |s.versions| {
        RebootOrdered(s, a.kept, a.tmp);
      }
    } else if a.Kill? {
      if !Final(PhaseOf(s, a.p)) {
        KillOrdered(ch, s, a.p);
      }
    } else if a.Acquire? {
      if PhaseOf(s, a.p).Idle? && s.lock.None? {
        AcquireOrdered(ch, s, a.p);
      }
    } else if a.Rename? && a.ok && PhaseOf(s, a.p).Synced? {
      ReplaceOrdered(ch, s, a.p);
    } else if Holding(PhaseOf(s, a.p)) {
      HolderHasLock(s, a.p);
      var s' := Step(ch, s, a);
      if s' != s {
        HolderOrdered(ch, s, s', a.p, PhaseOf(s', a.p));
      }
    }
  }

  lemma {:induction false} RunOrdered(ch: Change, original: Option<Content>, tmp: Content, actions: seq<Action>)
    ensures Ordered(Run(ch, Start(original, tmp), actions))
  {
    hide Inv, Step, Ordered;
    if actions == [] {
      StartOrdered(original, tmp);
    } else {
      var before := actions[..|actions| - 1];
      RunInv(ch, original, tmp, before);
      RunOrdered(ch, original, tmp, before);
      StepOrdered(ch, Run(ch, Start(original, tmp), before), actions[|actions| - 1]);
    }
  }

  lemma StartOrdered(original: Option<Content>, tmp: Content)
    ensures Ordered(Start(original, tmp))
  {
  }

  lemma {:induction false} RunKeepsOriginal(ch: Change, s: State, actions: seq<Action>)
    ensures Run(ch, s, actions).original == s.original
  {
    if actions != [] {
      RunKeepsOriginal(ch, s, actions[..|actions| - 1]);
    }
  }

  // ----- the theorems

  /** In every interleaving, with failures and crashes anywhere, what an unlocked reader finds
      is the result of making the committed changes one at a time in lock order, each author
      at most once, and it is whole unless nothing was ever committed. */
  lemma FileIsSerial(ch: Change, original: Option<Content>, tmp: Content, actions: seq<Action>)
    ensures
      var s := Run(ch, Start(original, tmp), actions);
      && s.file == Serially(ch, original, Authors(s.versions))
      && Subsequence(Authors(s.versions), s.acquired) && NoRepeat(Authors(s.versions))
      && (s.file == original || (s.file.Some? && s.file.value.Whole?))
  {
    hide Run, Serially, Subsequence, Authors, Read, Serialize;
    RunInv(ch, original, tmp, actions);
    RunOrdered(ch, original, tmp, actions);
    RunKeepsOriginal(ch, Start(original, tmp), actions);
    var s := Run(ch, Start(original, tmp), actions);
    OrderedWeakens(s);
    SubsequenceNoRepeat(Authors(s.versions), s.acquired);
    LinkedSerially(ch, original, s.versions);
    if s.versions != [] {
      assert Link(ch, original, s.versions, |s.versions| - 1);
    }
  }

  /** Every update that failed after its rename is among the committed changes. */
  ghost predicate LateStays(s: State) {
    forall p: nat :: PhaseOf(s, p).FailedLate? ==> p in Authors(s.versions)
  }

  lemma AuthorsGrow(versions: seq<Version>, more: seq<Version>, p: nat)
    requires versions <= more && p in Authors(versions)
    ensures p in Authors(more)
  {
    var i :| 0 <= i < |versions| && Authors(versions)[i] == p;
    assert Authors(more)[i] == p;
  }

  lemma StepGrows(ch: Change, s: State, a: Action)
    requires !a.PowerLoss?
    ensures s.versions <= Step(ch, s, a).versions
  {
    hide Read, Serialize, Latest;
  }

  /** Only the step that fails to sync the directory makes an update fail late. */
  lemma LateOrigin(ch: Change, s: State, a: Action, p: nat)
    requires PhaseOf(Step(ch, s, a), p).FailedLate? && !PhaseOf(s, p).FailedLate?
    ensures a == SyncDirectory(p, false) && PhaseOf(s, p).Renamed?
  {
    hide Read, Serialize, Latest;
  }

  lemma StepLateStays(ch: Change, s: State, a: Action)
    requires Inv(ch, s) && LateStays(s) && !a.PowerLoss?
    ensures LateStays(Step(ch, s, a))
  {
    hide Step, Authors, Linked, Exclusive;
    var s' := Step(ch, s, a);
    StepGrows(ch, s, a);
    forall p: nat | PhaseOf(s', p).FailedLate? ensures p in Authors(s'.versions) {
      if !PhaseOf(s, p).FailedLate? {
        LateOrigin(ch, s, a, p);
        assert Agrees(ch, s, p);
        AuthorAt(s.versions, PhaseOf(s, p).at);
      }
      AuthorsGrow(s.versions, s'.versions, p);
    }
  }

  lemma AuthorAt(versions: seq<Version>, at: nat)
    requires at < |versions|
    ensures versions[at].author in Authors(versions)
  {
    assert Authors(versions)[at] == versions[at].author;
  }

  ghost predicate NoPowerLoss(actions: seq<Action>) {
    forall i :: 0 <= i < |actions| ==> !actions[i].PowerLoss?
  }

  lemma {:induction false} RunLateStays(ch: Change, original: Option<Content>, tmp: Content, actions: seq<Action>)
    requires NoPowerLoss(actions)
    ensures LateStays(Run(ch, Start(original, tmp), actions))
  {
    hide Inv, Step, LateStays;
    if actions == [] {
      StartLateStays(original, tmp);
    } else {
      var before := actions[..|actions| - 1];
      RunInv(ch, original, tmp, before);
      RunLateStays(ch, original, tmp, before);
      StepLateStays(ch, Run(ch, Start(original, tmp), before), actions[|actions| - 1]);
    }
  }

  lemma StartLateStays(original: Option<Content>, tmp: Content)
    ensures LateStays(Start(original, tmp))
  {
  }

  /** In every interleaving an update that failed before the rename is not among the committed
      changes and one that succeeded is.  Unless power was lost, an update that reported an error
      is among them exactly when what failed was syncing the directory. */
  lemma FailureLeavesNoTrace(ch: Change, original: Option<Content>, tmp: Content, actions: seq<Action>, p: nat)
    ensures
      var s := Run(ch, Start(original, tmp), actions);
      && (PhaseOf(s, p).Failed? ==> p !in Authors(s.versions))
      && (PhaseOf(s, p).Succeeded? ==> p in Authors(s.versions))
      && (NoPowerLoss(actions) && (PhaseOf(s, p).Failed? || PhaseOf(s, p).FailedLate?) ==>
            (p in Authors(s.versions) <==> PhaseOf(s, p).FailedLate?))
  {
    hide Run;
    RunInv(ch, original, tmp, actions);
    RunOrdered(ch, original, tmp, actions);
    var s := Run(ch, Start(original, tmp), actions);
    if PhaseOf(s, p).Succeeded? {
      assert Agrees(ch, s, p);
      assert Authors(s.versions)[PhaseOf(s, p).at] == p;
    }
    if NoPowerLoss(actions) {
      RunLateStays(ch, original, tmp, actions);
    }
  }

  lemma StepKeepsDurable(ch: Change, s: State, a: Action, p: nat)
    requires Inv(ch, s) && PhaseOf(s, p).Succeeded?
    ensures
      var s' := Step(ch, s, a);
      && PhaseOf(s', p) == PhaseOf(s, p)
      && s.durable <= s'.durable <= |s'.versions| && s'.versions[..s.durable] == s.versions[..s.durable]
  {
    hide Read, Serialize, Latest, Agrees, Linked;
    HolderIsAnother(s, p);
  }

  lemma HolderIsAnother(s: State, p: nat)
    requires Exclusive(s) && PhaseOf(s, p).Succeeded?
    ensures s.lock != Some(p)
  {
  }

  /** An update that returned success is in the file's history for good, power loss included. */
  lemma {:induction false} SuccessSurvives(ch: Change, original: Option<Content>, tmp: Content,
                                           before: seq<Action>, after: seq<Action>, p: nat)
    requires PhaseOf(Run(ch, Start(original, tmp), before), p).Succeeded?
    ensures
      var s, s' := Run(ch, Start(original, tmp), before), Run(ch, Start(original, tmp), before + after);
      var at := PhaseOf(s, p).at;
      && PhaseOf(s', p) == Succeeded(at)
      && at < s.durable <= |s.versions| && s.durable <= s'.durable <= |s'.versions|
      && s'.versions[..at + 1] == s.versions[..at + 1] && s.versions[at].author == p
  {
    hide Step, Inv;
    var s := Run(ch, Start(original, tmp), before);
    RunInv(ch, original, tmp, before);
    SucceededAt(ch, s, p);
    if after == [] {
      assert before + after == before;
    } else {
      var n := |after| - 1;
      SuccessSurvives(ch, original, tmp, before, after[..n], p);
      assert (before + after)[..|before + after| - 1] == before + after[..n];
      var m := Run(ch, Start(original, tmp), before + after[..n]);
      RunInv(ch, original, tmp, before + after[..n]);
      StepKeepsDurable(ch, m, after[n], p);
      var s', at := Run(ch, Start(original, tmp), before + after), PhaseOf(s, p).at;
      assert s'.versions[..at + 1] == s'.versions[..m.durable][..at + 1];
      assert m.versions[..at + 1] == m.versions[..m.durable][..at + 1];
    }
  }

  lemma SucceededAt(ch: Change, s: State, p: nat)
    requires Inv(ch, s) && PhaseOf(s, p).Succeeded?
    ensures PhaseOf(s, p).at < s.durable <= |s.versions| && s.versions[PhaseOf(s, p).at].author == p
  {
    assert Agrees(ch, s, p);
  }

  lemma RunExtend(ch: Change, s: State, actions: seq<Action>, a: Action)
    ensures Run(ch, s, actions + [a]) == Step(ch, Run(ch, s, actions), a)
  {
    assert (actions + [a])[..|actions|] == actions;
  }

  /** The steps of one update that gets as far as the rename. */
  function ToRename(p: nat): seq<Action> {
    ToChange(p) + [Open(p, true)] + [Write(p, true)] + [Sync(p, true)] + [Rename(p, true)]
  }

  function ToChange(p: nat): seq<Action> {
    [Acquire(p)] + [Load(p)] + [Apply(p)]
  }

  lemma RunToChange(ch: Change, original: Option<Content>, tmp: Content, p: nat, c: Config)
    requires Read(original).Some? && ch(p, Read(original).value) == Some(c)
    ensures
      var s := Run(ch, Start(original, tmp), ToChange(p));
      PhaseOf(s, p) == Changed(c) && s.versions == [] && s.durable == 0
  {
    hide Read, Run;
    var s, a1 := Start(original, tmp), [Acquire(p)];
    RunNothing(ch, s);
    RunExtend(ch, s, [], Acquire(p));
    assert [] + a1 == a1;
    RunExtend(ch, s, a1, Load(p));
    RunExtend(ch, s, a1 + [Load(p)], Apply(p));
  }

  lemma RunToRename(ch: Change, original: Option<Content>, tmp: Content, p: nat, c: Config)
    requires Read(original).Some? && ch(p, Read(original).value) == Some(c) && Serialize(c).Some?
    ensures
      var s := Run(ch, Start(original, tmp), ToRename(p));
      PhaseOf(s, p) == Renamed(0) && s.versions == [Version(Some(Whole(Serialize(c).value)), true, p, c)]
          && s.durable == 0
  {
    hide Read, Serialize, Run, ToChange;
    var s, a3 := Start(original, tmp), ToChange(p);
    RunToChange(ch, original, tmp, p, c);
    RunExtend(ch, s, a3, Open(p, true));
    var a4 := a3 + [Open(p, true)];
    RunExtend(ch, s, a4, Write(p, true));
    var a5 := a4 + [Write(p, true)];
    RunExtend(ch, s, a5, Sync(p, true));
    RunExtend(ch, s, a5 + [Sync(p, true)], Rename(p, true));
  }

  lemma RunNothing(ch: Change, s: State)
    ensures Run(ch, s, []) == s
  {
  }

  /** An update that reports an error although its change is in the file. */
  lemma LateFailure(ch: Change, original: Option<Content>, tmp: Content, p: nat, c: Config, ok: bool)
    requires Read(original).Some? && ch(p, Read(original).value) == Some(c) && Serialize(c).Some?
    ensures
      var s := Run(ch, Start(original, tmp), ToRename(p) + [SyncDirectory(p, ok)]);
      && (PhaseOf(s, p).Succeeded? <==> ok) && (PhaseOf(s, p).FailedLate? <==> !ok)
      && Authors(s.versions) == [p]
  {
    hide Read, Serialize, Run;
    RunToRename(ch, original, tmp, p, c);
    RunExtend(ch, Start(original, tmp), ToRename(p), SyncDirectory(p, ok));
  }

  /** And one whose change a power loss then takes away. */
  lemma LateFailureUndone(ch: Change, original: Option<Content>, tmp: Content, p: nat, c: Config)
    requires Read(original).Some? && ch(p, Read(original).value) == Some(c) && Serialize(c).Some?
    ensures
      var s := Run(ch, Start(original, tmp), ToRename(p) + [SyncDirectory(p, false)] + [PowerLoss(0, tmp)]);
      PhaseOf(s, p).FailedLate? && s.versions == [] && s.file == original
  {
    hide Read, Serialize, Run, Authors;
    var s, actions := Start(original, tmp), ToRename(p) + [SyncDirectory(p, false)];
    LateFailure(ch, original, tmp, p, c, false);
    RunExtend(ch, s, actions, PowerLoss(0, tmp));
    RunKeepsOriginal(ch, s, actions);
    NeverDurable(ch, original, tmp, p, c);
  }

  lemma NeverDurable(ch: Change, original: Option<Content>, tmp: Content, p: nat, c: Config)
    requires Read(original).Some? && ch(p, Read(original).value) == Some(c) && Serialize(c).Some?
    ensures Run(ch, Start(original, tmp), ToRename(p) + [SyncDirectory(p, false)]).durable == 0
  {
    hide Read, Serialize, Run;
    RunToRename(ch, original, tmp, p, c);
    RunExtend(ch, Start(original, tmp), ToRename(p), SyncDirectory(p, false));
  }

  // ----- one update that no other disturbs

  /** What the system answers to the five calls that can fail. */
  datatype Answers = Answers(open: bool, write: bool, sync: bool, rename: bool, directory: bool)

  /** The eight steps of one update, in a row. */
  function Update(ch: Change, s: State, p: nat, ok: Answers): State {
    var loaded := Step(ch, Step(ch, s, Acquire(p)), Load(p));
    var written := Step(ch, Step(ch, Step(ch, loaded, Apply(p)), Open(p, ok.open)), Write(p, ok.write));
    Step(ch, Step(ch, Step(ch, written, Sync(p, ok.sync)), Rename(p, ok.rename)), SyncDirectory(p, ok.directory))
  }

  /** The configuration an update would store, if the file can be read, the change applies and
      its result can be written. */
  function Updated(ch: Change, s: State, p: nat): Option<Config> {
    match Read(s.file)
    case None => None
    case Some(c) =>
      match ch(p, c)
      case None => None
      case Some(c') => if Serialize(c').Some? then Some(c') else None
  }

  /** The lock is free again, and no other process was disturbed. */
  ghost predicate GivenBack(s: State, r: State, p: nat) {
    r.lock == None && r.original == s.original && forall q: nat :: q != p ==> PhaseOf(r, q) == PhaseOf(s, q)
  }

  /** `t` is `s` but for the temporary file and who had the lock. */
  predicate Prepared(s: State, t: State) {
    t == s.(tmp := t.tmp, tmpSynced := t.tmpSynced, acquired := t.acquired)
  }

  /** The state in which the update of `p` has come to phase `f`. */
  function At(s: State, p: nat, f: Phase): State {
    s.(lock := if Holding(f) then Some(p) else None, procs := s.procs[p := f])
  }

  lemma StepAt(s: State, p: nat, f: Phase, g: Phase)
    ensures PhaseOf(At(s, p, f), p) == f
    ensures Holding(f) && Holding(g) ==> Go(At(s, p, f), p, g) == At(s, p, g)
    ensures !Holding(g) ==> End(At(s, p, f), p, g) == At(s, p, g)
  {
    assert s.procs[p := f][p := g] == s.procs[p := g];
  }

  lemma LoadsAndApplies(ch: Change, s: State, p: nat)
    ensures
      var r := Step(ch, Step(ch, At(s, p, Locked), Load(p)), Apply(p));
      var c := Read(s.file);
      r == At(s, p, if c.Some? && ch(p, c.value).Some? then Changed(ch(p, c.value).value) else Failed)
  {
    hide Read, At, Go, End;
    var f := if Read(s.file).Some? then Loaded(Read(s.file).value) else Failed;
    StepAt(s, p, Locked, f);
    AtKeeps(s, p, Locked);
    StepAt(s, p, f, Failed);
    if f.Loaded? && ch(p, f.c).Some? {
      StepAt(s, p, f, Changed(ch(p, f.c).value));
    }
  }

  lemma AtKeeps(s: State, p: nat, f: Phase)
    ensures At(s, p, f).file == s.file && At(s, p, f).tmp == s.tmp
  {
  }

  lemma Opens(ch: Change, s: State, p: nat, c: Config, ok: bool)
    ensures Step(ch, At(s, p, Changed(c)), Open(p, ok)) ==
              if ok then At(s.(tmp := Partial, tmpSynced := false), p, Writing(c)) else At(s, p, Failed)
  {
    StepAt(s, p, Changed(c), Failed);
    StepAt(s.(tmp := Partial, tmpSynced := false), p, Changed(c), Writing(c));
  }

  lemma WritesOut(ch: Change, s: State, p: nat, c: Config, ok: bool)
    ensures Step(ch, At(s, p, Writing(c)), Write(p, ok)) ==
              if ok && Serialize(c).Some? then At(s.(tmp := Whole(Serialize(c).value)), p, Written(c))
              else At(s, p, Failed)
  {
    hide Serialize;
    StepAt(s, p, Writing(c), Failed);
    if Serialize(c).Some? {
      StepAt(s.(tmp := Whole(Serialize(c).value)), p, Writing(c), Written(c));
    }
  }

  lemma Syncs(ch: Change, s: State, p: nat, c: Config, ok: bool)
    ensures Step(ch, At(s, p, Written(c)), Sync(p, ok)) ==
              if ok then At(s.(tmpSynced := true), p, Synced(c)) else At(s, p, Failed)
  {
    StepAt(s, p, Written(c), Failed);
    StepAt(s.(tmpSynced := true), p, Written(c), Synced(c));
  }

  lemma Writes(ch: Change, s: State, p: nat, c: Config, ok: Answers)
    ensures
      var begun := Step(ch, At(s, p, Changed(c)), Open(p, ok.open));
      var r := Step(ch, Step(ch, begun, Write(p, ok.write)), Sync(p, ok.sync));
      if ok.open && ok.write && Serialize(c).Some? && ok.sync then
        r == At(s.(tmp := Whole(Serialize(c).value), tmpSynced := true), p, Synced(c))
      else exists t, synced :: r == At(s.(tmp := t, tmpSynced := synced), p, Failed)
  {
    hide Serialize, Step, At;
    var s1 := s.(tmp := Partial, tmpSynced := false);
    Opens(ch, s, p, c, ok.open);
    if !ok.open {
      assert s.(tmp := s.tmp, tmpSynced := s.tmpSynced) == s;
      FailedAt(s, s, p);
      FailedStays(ch, At(s, p, Failed), p, Write(p, ok.write));
      FailedStays(ch, At(s, p, Failed), p, Sync(p, ok.sync));
    } else {
      WritesOut(ch, s1, p, c, ok.write);
      if ok.write && Serialize(c).Some? {
        Syncs(ch, s1.(tmp := Whole(Serialize(c).value)), p, c, ok.sync);
      } else {
        FailedAt(s1, s1, p);
        FailedStays(ch, At(s1, p, Failed), p, Sync(p, ok.sync));
      }
    }
  }

  lemma Renames(ch: Change, s: State, t: State, p: nat, c: Config, ok: Answers)
    requires Prepared(s, t)
    ensures
      var r := Step(ch, Step(ch, At(t, p, Synced(c)), Rename(p, ok.rename)), SyncDirectory(p, ok.directory));
      && GivenBack(s, r, p) && r.acquired == t.acquired
      && if ok.rename then
           && r.file == Some(t.tmp) && r.versions == s.versions + [Version(Some(t.tmp), t.tmpSynced, p, c)]
           && PhaseOf(r, p) == (if ok.directory then Succeeded(|s.versions|) else FailedLate)
           && r.durable == (if ok.directory then |s.versions| + 1 else s.durable)
         else PhaseOf(r, p) == Failed && r.file == s.file && r.versions == s.versions && r.durable == s.durable
  {
    hide Read, Serialize, Latest;
  }

  /** A failed update takes no further step. */
  lemma FailedStays(ch: Change, s: State, p: nat, a: Action)
    requires PhaseOf(s, p) == Failed
    requires a in {Open(p, true), Open(p, false), Write(p, true), Write(p, false), Sync(p, true), Sync(p, false),
                   Rename(p, true), Rename(p, false), SyncDirectory(p, true), SyncDirectory(p, false)}
    ensures Step(ch, s, a) == s
  {
    hide Read, Serialize;
  }

  /** An update that finds the lock free succeeds exactly when there is something to store and no
      call fails; then the file holds it for good.  It always gives the lock back; it changes the
      file only by the rename, and only the sync of the directory can fail after that. */
  lemma UpdateExactly(ch: Change, s: State, p: nat, ok: Answers)
    requires PhaseOf(s, p) == Idle && s.lock == None
    ensures
      var (r, next) := (Update(ch, s, p, ok), Updated(ch, s, p));
      && GivenBack(s, r, p) && r.acquired == s.acquired + [p]
      && if next.Some? && ok.open && ok.write && ok.sync && ok.rename then
           && r.file == Some(Whole(Serialize(next.value).value))
           && r.versions == s.versions + [Version(r.file, true, p, next.value)]
           && PhaseOf(r, p) == (if ok.directory then Succeeded(|s.versions|) else FailedLate)
           && r.durable == (if ok.directory then |s.versions| + 1 else s.durable)
         else PhaseOf(r, p) == Failed && r.file == s.file && r.versions == s.versions && r.durable == s.durable
  {
    hide Read, Serialize, Step, At, GivenBack;
    var s1 := s.(acquired := s.acquired + [p]);
    Acquires(ch, s, p);
    LoadsAndApplies(ch, s1, p);
    var c := Read(s.file);
    if c.Some? && ch(p, c.value).Some? {
      var c' := ch(p, c.value).value;
      Writes(ch, s1, p, c', ok);
      if ok.open && ok.write && Serialize(c').Some? && ok.sync {
        Renames(ch, s, s1.(tmp := Whole(Serialize(c').value), tmpSynced := true), p, c', ok);
      } else {
        var begun := Step(ch, At(s1, p, Changed(c')), Open(p, ok.open));
        var r := Step(ch, Step(ch, begun, Write(p, ok.write)), Sync(p, ok.sync));
        var t, synced :| r == At(s1.(tmp := t, tmpSynced := synced), p, Failed);
        FailedAt(s, s1.(tmp := t, tmpSynced := synced), p);
        FailedStays(ch, r, p, Rename(p, ok.rename));
        FailedStays(ch, r, p, SyncDirectory(p, ok.directory));
      }
    } else {
      var r := At(s1, p, Failed);
      FailedAt(s, s1, p);
      FailedStays(ch, r, p, Open(p, ok.open));
      FailedStays(ch, r, p, Write(p, ok.write));
      FailedStays(ch, r, p, Sync(p, ok.sync));
      FailedStays(ch, r, p, Rename(p, ok.rename));
      FailedStays(ch, r, p, SyncDirectory(p, ok.directory));
    }
  }

  lemma Acquires(ch: Change, s: State, p: nat)
    requires PhaseOf(s, p) == Idle && s.lock == None
    ensures Step(ch, s, Acquire(p)) == At(s.(acquired := s.acquired + [p]), p, Locked)
  {
  }

  lemma FailedAt(s: State, t: State, p: nat)
    requires Prepared(s, t)
    ensures
      var r := At(t, p, Failed);
      && GivenBack(s, r, p) && r.acquired == t.acquired && PhaseOf(r, p) == Failed
      && r.file == s.file && r.versions == s.versions && r.durable == s.durable
  {
  }

  /** A missing file is changed as the default configuration is, and a torn one not at all. */
  lemma MissingOrTorn(ch: Change, s: State, p: nat, ok: Answers)
    requires PhaseOf(s, p) == Idle && s.lock == None
    ensures
      var c := ch(p, Config(1, "default", Service(true, None, None, true, map[]), map[], map[]));
      s.file == None && ok == Answers(true, true, true, true, true) && c.Some? && Serialize(c.value).Some? ==>
        && Update(ch, s, p, ok).file == Some(Whole(Serialize(c.value).value))
        && PhaseOf(Update(ch, s, p, ok), p) == Succeeded(|s.versions|)
    ensures s.file == Some(Partial) ==>
              PhaseOf(Update(ch, s, p, ok), p) == Failed && Update(ch, s, p, ok).file == s.file
  {
    hide Update, Serialize, GivenBack;
    UpdateExactly(ch, s, p, ok);
  }
}
