/**
 The getOrCreate protocol of src/eckit/container/CacheManager.h: processes look for an entry under several
 roots, lock, look again, write a uniquely named temporary file and rename it into place.

 Any number of processes interleave; every file-system call is one atomic step. The contents of a file are
 what they are for: partial, or everything some creation for some key wrote.
 */
module CacheProtocol {
  import opened Common

  type Key(==, !new)

  /** `PathName::unique` names a file after the process and a serial number. */
  datatype Path = Entry(root: nat, key: Key) | Temp(p: nat, id: nat)

  /** `stamp` tells one creation from another. */
  datatype Content = Partial | Complete(key: Key, stamp: nat)

  /** Which roots are writable, whether the locker excludes anyone, whether a miss throws. */
  datatype Config = Config(writable: seq<bool>, locking: bool, throwOnMiss: bool)

  datatype Slot = Slot(root: nat, key: Key)

  /** Where a process is in `getOrCreate`. */
  datatype Pc =
    | Look(key: Key, i: nat)                      // first get, about to test root i
    | Choose(key: Key, i: nat)                    // loop over the roots, about to consider root i
    | Lock(key: Key, root: nat)                   // about to take the lock of the entry
    | LookAgain(key: Key, root: nat, i: nat)      // get under the lock
    | Stage(key: Key, root: nat)                  // missed again, about to start the temporary file
    | Write(key: Key, root: nat, tmp: nat)        // creating and saving
    | Commit(key: Key, root: nat, tmp: nat)       // about to rename
    | Confirm(key: Key, root: nat, i: nat)        // get after the commit
    | Load(key: Key, found: nat, held: Option<nat>)
    | Done(key: Key, found: nat, content: Content)
    | Failed(key: Key)

  datatype State = State(
    fs: map<Path, Content>, locks: map<Slot, nat>, procs: map<nat, Pc>, nextTemp: nat, created: multiset<Key>)

  datatype Action = Begin(p: nat, key: Key) | Go(p: nat) | Fault(p: nat) | Evict(root: nat, key: Key)

  function At(s: State, p: nat, pc: Pc): (s': State)
    ensures s'.procs.Keys == s.procs.Keys + {p} && forall q :: q in s.procs && q != p ==> s'.procs[q] == s.procs[q]
  {
    s.(procs := s.procs[p := pc])
  }

  function Unlocked(s: State, root: nat, key: Key): State { s.(locks := s.locks - {Slot(root, key)}) }

  /** One step of process `p`. */
  function Go1(c: Config, s: State, p: nat): State
    requires p in s.procs
  {
    match s.procs[p]
    case Look(k, i) =>
      if i < |c.writable| then At(s, p, if Entry(i, k) in s.fs then Load(k, i, None) else Look(k, i + 1))
      else At(s, p, if c.throwOnMiss then Failed(k) else Choose(k, 0))
    case Choose(k, i) =>
      if i < |c.writable| then At(s, p, if c.writable[i] then Lock(k, i) else Choose(k, i + 1))
      else At(s, p, Failed(k))
    case Lock(k, r) =>
      if !c.locking then At(s, p, LookAgain(k, r, 0))
      else if Slot(r, k) in s.locks then s
      else At(s.(locks := s.locks[Slot(r, k) := p]), p, LookAgain(k, r, 0))
    case LookAgain(k, r, i) =>
      if i < |c.writable| then At(s, p, if Entry(i, k) in s.fs then Load(k, i, Some(r)) else LookAgain(k, r, i + 1))
      else if c.throwOnMiss then At(Unlocked(s, r, k), p, Failed(k))
      else At(s, p, Stage(k, r))
    case Stage(k, r) =>
      var t := s.nextTemp;
      var s' := s.(fs := s.fs[Temp(p, t) := Partial], nextTemp := t + 1, created := s.created + multiset{k});
      At(s', p, Write(k, r, t))
    case Write(k, r, t) =>
      At(s.(fs := s.fs[Temp(p, t) := Complete(k, t)]), p, Commit(k, r, t))
    case Commit(k, r, t) =>
      if Temp(p, t) !in s.fs then At(Unlocked(s, r, k), p, Failed(k))
      else At(s.(fs := (s.fs - {Temp(p, t)})[Entry(r, k) := s.fs[Temp(p, t)]]), p, Confirm(k, r, 0))
    case Confirm(k, r, i) =>
      if i < |c.writable| then At(s, p, if Entry(i, k) in s.fs then Load(k, i, Some(r)) else Confirm(k, r, i + 1))
      else At(Unlocked(s, r, k), p, Failed(k))
    case Load(k, f, held) =>
      var s' := if held.Some? then Unlocked(s, held.value, k) else s;
      At(s', p, if Entry(f, k) in s.fs then Done(k, f, s.fs[Entry(f, k)]) else Failed(k))
    case Done(_, _, _) => s
    case Failed(_) => s
  }

  /** A failed system call: caught under the lock, where the next root is tried, and fatal elsewhere. A failed rename
      is caught by `commit`, whose answer then fails an assertion. */
  function Fault1(s: State, p: nat): State
    requires p in s.procs
  {
    match s.procs[p]
    case Lock(k, r) => At(s, p, Choose(k, r + 1))
    case LookAgain(k, r, _) => At(Unlocked(s, r, k), p, Choose(k, r + 1))
    case Stage(k, r) => At(Unlocked(s, r, k), p, Choose(k, r + 1))
    case Write(k, r, _) => At(Unlocked(s, r, k), p, Choose(k, r + 1))
    case Commit(k, r, _) => At(Unlocked(s, r, k), p, Failed(k))
    case Confirm(k, r, _) => At(Unlocked(s, r, k), p, Choose(k, r + 1))
    case Load(k, _, Some(r)) => At(Unlocked(s, r, k), p, Choose(k, r + 1))
    case Done(_, _, _) => s
    case pc => At(s, p, Failed(pc.key))
  }

  function Step(c: Config, s: State, a: Action): State {
    match a
    case Begin(p, k) => if p in s.procs then s else At(s, p, Look(k, 0))
    case Go(p) => if p in s.procs then Go1(c, s, p) else s
    case Fault(p) => if p in s.procs then Fault1(s, p) else s
    case Evict(r, k) => s.(fs := s.fs - {Entry(r, k)})
  }

  function Run(c: Config, s: State, as_: seq<Action>): State
    decreases |as_|
  {
    if as_ == [] then s else Run(c, Step(c, s, as_[0]), as_[1..])
  }

  /** A cache directory with complete entries, perhaps with files that a crash left behind, but no process at work. */
  ghost predicate Initial(s: State) {
    && s.locks == map[] && s.procs == map[] && s.created == multiset{}
    && forall path :: path in s.fs && path.Entry? ==> s.fs[path].Complete? && s.fs[path].key == path.key
  }

  // ---------------------------------------------------------------- only complete files are seen

  ghost predicate Whole(f: Content, k: Key) { f.Complete? && f.key == k }

  ghost predicate ProcOk(fs: map<Path, Content>, p: nat, pc: Pc) {
    && (pc.Commit? ==> Temp(p, pc.tmp) in fs && Whole(fs[Temp(p, pc.tmp)], pc.key))
    && (pc.Done? ==> Whole(pc.content, pc.key))
  }

  /** A file about to be renamed, a file under an entry name and a file that was loaded are complete and of their key.
      */
  ghost predicate Inv(s: State) {
    && (forall r: nat, k :: Entry(r, k) in s.fs ==> Whole(s.fs[Entry(r, k)], k))
    && (forall p :: p in s.procs ==> ProcOk(s.fs, p, s.procs[p]))
  }

  /** Only process `p` moves. */
  ghost predicate Moves(s: State, s': State, p: nat) {
    s'.procs.Keys == s.procs.Keys && forall q :: q in s.procs && q != p ==> s'.procs[q] == s.procs[q]
  }

  lemma GoMoves(c: Config, s: State, p: nat)
    requires p in s.procs
    ensures Moves(s, Go1(c, s, p), p)
  {
  }

  lemma MoveKeepsInv(s: State, s': State, p: nat)
    requires Inv(s) && p in s'.procs && Moves(s, s', p) && s'.fs == s.fs && ProcOk(s'.fs, p, s'.procs[p])
    ensures Inv(s')
  {
  }

  lemma TempKeepsInv(s: State, s': State, p: nat, t: nat, f: Content)
    requires Inv(s) && p in s'.procs && Moves(s, s', p) && s'.fs == s.fs[Temp(p, t) := f] &&
             ProcOk(s'.fs, p, s'.procs[p])
    ensures Inv(s')
  {
  }

  lemma CommitKeepsInv(s: State, s': State, p: nat, t: nat, r: nat, k: Key)
    requires Inv(s) && p in s'.procs && Moves(s, s', p) && Temp(p, t) in s.fs && Whole(s.fs[Temp(p, t)], k)
    requires s'.fs == (s.fs - {Temp(p, t)})[Entry(r, k) := s.fs[Temp(p, t)]] && ProcOk(s'.fs, p, s'.procs[p])
    ensures Inv(s')
  {
  }

  ghost predicate WritesFiles(pc: Pc) { pc.Stage? || pc.Write? || pc.Commit? }

  lemma GoLoads(c: Config, s: State, p: nat)
    requires Inv(s) && p in s.procs && !WritesFiles(s.procs[p])
    ensures var s' := Go1(c, s, p); s'.fs == s.fs && p in s'.procs && ProcOk(s'.fs, p, s'.procs[p])
  {
    assert ProcOk(s.fs, p, s.procs[p]);
    if s.procs[p].Load? { EntryWhole(s, s.procs[p].found, s.procs[p].key); }
    hide Inv, Whole;
  }

  lemma GoKeepsInv(c: Config, s: State, p: nat)
    requires Inv(s) && p in s.procs
    ensures Inv(Go1(c, s, p))
  {
    var s', pc := Go1(c, s, p), s.procs[p];
    GoMoves(c, s, p);
    assert ProcOk(s.fs, p, pc);
    hide Inv, Moves;
    if WritesFiles(pc) {
      match pc
      case Stage(_, _) => TempKeepsInv(s, s', p, s.nextTemp, Partial);
      case Write(k, _, t) => TempKeepsInv(s, s', p, t, Complete(k, t));
      case Commit(k, r, t) => CommitKeepsInv(s, s', p, t, r, k);
    } else {
      GoLoads(c, s, p);
      hide Go1;
      MoveKeepsInv(s, s', p);
    }
  }

  lemma EntryWhole(s: State, r: nat, k: Key)
    requires Inv(s)
    ensures Entry(r, k) in s.fs ==> Whole(s.fs[Entry(r, k)], k)
  {
  }

  lemma FaultKeepsInv(s: State, p: nat)
    requires Inv(s) && p in s.procs
    ensures Inv(Fault1(s, p))
  {
  }

  lemma StepKeepsInv(c: Config, s: State, a: Action)
    requires Inv(s)
    ensures Inv(Step(c, s, a))
  {
    hide Go1, Fault1;
    match a
    case Go(p) => if p in s.procs { GoKeepsInv(c, s, p); }
    case Fault(p) => if p in s.procs { FaultKeepsInv(s, p); }
    case _ =>
  }

  lemma {:induction false} RunKeepsInv(c: Config, s: State, as_: seq<Action>)
    requires Inv(s)
    ensures Inv(Run(c, s, as_))
    decreases |as_|
  {
    if as_ != [] {
      StepKeepsInv(c, s, as_[0]);
      RunKeepsInv(c, Step(c, s, as_[0]), as_[1..]);
    }
  }

  /** In any run, with or without locking, faults and evictions, whatever a process has loaded is a complete file of
      its key, and so is every file it could load next. */
  lemma LoadsAreComplete(c: Config, s: State, as_: seq<Action>)
    requires Initial(s)
    ensures var s' := Run(c, s, as_);
            && (forall p :: p in s'.procs && s'.procs[p].Done? ==> Whole(s'.procs[p].content, s'.procs[p].key))
            && (forall r: nat, k :: Entry(r, k) in s'.fs ==> Whole(s'.fs[Entry(r, k)], k))
  {
    RunKeepsInv(c, s, as_);
  }

  // ---------------------------------------------------------------- created at most once

  /** The first writable root from `i` on; the number of roots if there is none. */
  ghost function FirstWritable(c: Config, i: nat := 0): (r: nat)
    requires i <= |c.writable|
    ensures i <= r <= |c.writable| && (r < |c.writable| ==> c.writable[r])
    ensures forall j :: i <= j < r ==> !c.writable[j]
    decreases |c.writable| - i
  {
    if i == |c.writable| || c.writable[i] then i else FirstWritable(c, i + 1)
  }

  ghost function FirstHit(c: Config, init: map<Path, Content>, k: Key, i: nat := 0): (r: nat)
    requires i <= |c.writable|
    ensures i <= r <= |c.writable| && (r < |c.writable| ==> Entry(r, k) in init)
    ensures forall j: nat :: i <= j < r ==> Entry(j, k) !in init
    decreases |c.writable| - i
  {
    if i == |c.writable| || Entry(i, k) in init then i else FirstHit(c, init, k, i + 1)
  }

  ghost predicate Hit(c: Config, init: map<Path, Content>, k: Key) { FirstHit(c, init, k) < |c.writable| }

  /** Whether a process that asks for `k` gets it. */
  ghost predicate Served(c: Config, init: map<Path, Content>, k: Key) {
    Hit(c, init, k) || (!c.throwOnMiss && FirstWritable(c) < |c.writable|)
  }

  /** The root under which everybody finds `k`. */
  ghost function Home(c: Config, init: map<Path, Content>, k: Key): nat {
    if Hit(c, init, k) then FirstHit(c, init, k) else FirstWritable(c)
  }

  ghost predicate Holds(s: State, p: nat, r: nat, k: Key) { Slot(r, k) in s.locks && s.locks[Slot(r, k)] == p }

  ghost predicate Absent(c: Config, fs: map<Path, Content>, k: Key, n: nat) {
    forall j: nat :: j < n ==> Entry(j, k) !in fs
  }

  /** Process `p` is in the critical section of `k`, which is that of the first writable root. */
  ghost predicate Inside(c: Config, init: map<Path, Content>, s: State, p: nat, r: nat, k: Key) {
    !Hit(c, init, k) && !c.throwOnMiss && r == FirstWritable(c) < |c.writable| && Holds(s, p, r, k)
  }

  ghost predicate PcOk(c: Config, init: map<Path, Content>, s: State, p: nat, pc: Pc) {
    match pc
    case Look(k, i) => i <= FirstHit(c, init, k)
    case Choose(k, i) => !Hit(c, init, k) && !c.throwOnMiss && i <= FirstWritable(c)
    case Lock(k, r) => !Hit(c, init, k) && !c.throwOnMiss && r == FirstWritable(c) < |c.writable|
    case LookAgain(k, r, i) => Inside(c, init, s, p, r, k) && i <= |c.writable| && Absent(c, s.fs, k, i)
    case Stage(k, r) => Inside(c, init, s, p, r, k) && Absent(c, s.fs, k, |c.writable|)
    case Write(k, r, _) => Inside(c, init, s, p, r, k) && Absent(c, s.fs, k, |c.writable|) && s.created[k] == 1
    case Commit(k, r, _) => Inside(c, init, s, p, r, k) && Absent(c, s.fs, k, |c.writable|) && s.created[k] == 1
    case Confirm(k, r, i) => Inside(c, init, s, p, r, k) && Entry(r, k) in s.fs && i <= r
    case Load(k, f, held) =>
      && Served(c, init, k) && f == Home(c, init, k) && Entry(f, k) in s.fs
      && (held.Some? ==> Inside(c, init, s, p, held.value, k))
    case Done(k, f, content) =>
      Served(c, init, k) && f == Home(c, init, k) && Entry(f, k) in s.fs && content == s.fs[Entry(f, k)]
    case Failed(k) => !Served(c, init, k)
  }

  /** Whoever started a creation that is not in place yet is still inside. */
  ghost predicate KeyOk(c: Config, init: map<Path, Content>, s: State, k: Key) {
    if Hit(c, init, k) then
      && s.created[k] == 0
      && (forall r: nat :: r < |c.writable| ==>
            && (Entry(r, k) in s.fs <==> Entry(r, k) in init)
            && (Entry(r, k) in init ==> s.fs[Entry(r, k)] == init[Entry(r, k)]))
    else
      var h := FirstWritable(c);
      && s.created[k] <= (if Served(c, init, k) then 1 else 0)
      && (forall r: nat :: r < |c.writable| && Entry(r, k) in s.fs ==> r == h && s.created[k] == 1)
      && (s.created[k] == 1 && Entry(h, k) !in s.fs ==>
            && h < |c.writable| && Slot(h, k) in s.locks && s.locks[Slot(h, k)] in s.procs
            && var pc := s.procs[s.locks[Slot(h, k)]]; (pc.Write? || pc.Commit?) && pc.key == k)
  }

  ghost predicate Once(c: Config, init: map<Path, Content>, s: State) {
    && (forall p :: p in s.procs ==> PcOk(c, init, s, p, s.procs[p]))
    && (forall k :: KeyOk(c, init, s, k))
  }

  /** Nothing that concerns key `k` differs between the two states. */
  ghost predicate SameFor(s: State, s': State, k: Key) {
    && s.created[k] == s'.created[k]
    && (forall r: nat :: (Entry(r, k) in s.fs <==> Entry(r, k) in s'.fs) &&
          (Entry(r, k) in s.fs ==> s.fs[Entry(r, k)] == s'.fs[Entry(r, k)]))
    && (forall r: nat :: (Slot(r, k) in s.locks <==> Slot(r, k) in s'.locks) &&
          (Slot(r, k) in s.locks ==> s.locks[Slot(r, k)] == s'.locks[Slot(r, k)]))
  }

  lemma SamePcOk(c: Config, init: map<Path, Content>, s: State, s': State, q: nat, pc: Pc)
    requires PcOk(c, init, s, q, pc) && SameFor(s, s', pc.key)
    ensures PcOk(c, init, s', q, pc)
  {
  }

  ghost predicate Creating(pc: Pc, k: Key) { (pc.Write? || pc.Commit?) && pc.key == k }

  lemma SameKeyOk(c: Config, init: map<Path, Content>, s: State, s': State, k: Key)
    requires KeyOk(c, init, s, k) && SameFor(s, s', k)
    requires forall q :: q in s.procs && Creating(s.procs[q], k) ==> q in s'.procs && Creating(s'.procs[q], k)
    ensures KeyOk(c, init, s', k)
  {
  }

  /** The steps that change the file system, the locks or the count. */
  ghost predicate Changes(c: Config, s: State, p: nat)
    requires p in s.procs
  {
    var pc := s.procs[p];
    || pc.Lock? || pc.Stage? || pc.Write? || pc.Commit?
    || (pc.LookAgain? && pc.i >= |c.writable| && c.throwOnMiss)
    || (pc.Confirm? && pc.i >= |c.writable|)
    || (pc.Load? && pc.held.Some?)
  }

  lemma QuietStep(c: Config, s: State, p: nat, k: Key)
    requires p in s.procs && !Changes(c, s, p)
    ensures SameFor(s, Go1(c, s, p), k)
    ensures forall q :: q in s.procs && Creating(s.procs[q], k) ==>
              q in Go1(c, s, p).procs && Creating(Go1(c, s, p).procs[q], k)
  {
  }

  lemma ChangeFrame(c: Config, s: State, p: nat, k: Key)
    requires p in s.procs && Changes(c, s, p) && s.procs[p].key != k
    ensures SameFor(s, Go1(c, s, p), k)
    ensures forall q :: q in s.procs && Creating(s.procs[q], k) ==>
              q in Go1(c, s, p).procs && Creating(Go1(c, s, p).procs[q], k)
  {
  }

  lemma ChangeKeepsOther(c: Config, init: map<Path, Content>, s: State, p: nat, q: nat)
    requires c.locking && p in s.procs && q in s.procs && q != p && Changes(c, s, p) &&
             s.procs[q].key == s.procs[p].key
    requires PcOk(c, init, s, p, s.procs[p]) && PcOk(c, init, s, q, s.procs[q])
    ensures PcOk(c, init, Go1(c, s, p), q, s.procs[q])
  {
  }

  lemma ChangeKeepsKey(c: Config, init: map<Path, Content>, s: State, p: nat)
    requires c.locking && p in s.procs && Changes(c, s, p)
    requires PcOk(c, init, s, p, s.procs[p]) && ProcOk(s.fs, p, s.procs[p]) && KeyOk(c, init, s, s.procs[p].key)
    ensures KeyOk(c, init, Go1(c, s, p), s.procs[p].key)
  {
  }

  lemma SearchKeepsSelf(c: Config, init: map<Path, Content>, s: State, p: nat)
    requires c.locking && p in s.procs && (s.procs[p].Look? || s.procs[p].Choose? || s.procs[p].Lock?)
    requires PcOk(c, init, s, p, s.procs[p]) && ProcOk(s.fs, p, s.procs[p]) && KeyOk(c, init, s, s.procs[p].key)
    ensures p in Go1(c, s, p).procs && PcOk(c, init, Go1(c, s, p), p, Go1(c, s, p).procs[p])
  {
    hide FirstWritable, FirstHit;
  }

  lemma InsideKeepsSelf(c: Config, init: map<Path, Content>, s: State, p: nat)
    requires c.locking && p in s.procs && (s.procs[p].LookAgain? || s.procs[p].Stage? || s.procs[p].Write?)
    requires PcOk(c, init, s, p, s.procs[p]) && ProcOk(s.fs, p, s.procs[p]) && KeyOk(c, init, s, s.procs[p].key)
    ensures p in Go1(c, s, p).procs && PcOk(c, init, Go1(c, s, p), p, Go1(c, s, p).procs[p])
  {
    hide FirstWritable, FirstHit;
  }

  lemma EndKeepsSelf(c: Config, init: map<Path, Content>, s: State, p: nat)
    requires c.locking && p in s.procs &&
             (s.procs[p].Commit? || s.procs[p].Confirm? || s.procs[p].Load? || s.procs[p].Done? || s.procs[p].Failed?)
    requires PcOk(c, init, s, p, s.procs[p]) && ProcOk(s.fs, p, s.procs[p]) && KeyOk(c, init, s, s.procs[p].key)
    ensures p in Go1(c, s, p).procs && PcOk(c, init, Go1(c, s, p), p, Go1(c, s, p).procs[p])
  {
  }

  lemma GoKeepsSelf(c: Config, init: map<Path, Content>, s: State, p: nat)
    requires c.locking && Inv(s) && Once(c, init, s) && p in s.procs
    ensures p in Go1(c, s, p).procs && PcOk(c, init, Go1(c, s, p), p, Go1(c, s, p).procs[p])
  {
    hide PcOk, KeyOk;
    assert PcOk(c, init, s, p, s.procs[p]) && ProcOk(s.fs, p, s.procs[p]);
    var pc := s.procs[p];
    assert KeyOk(c, init, s, pc.key);
    if pc.Look? || pc.Choose? || pc.Lock? { SearchKeepsSelf(c, init, s, p); }
    else if pc.LookAgain? || pc.Stage? || pc.Write? { InsideKeepsSelf(c, init, s, p); }
    else { EndKeepsSelf(c, init, s, p); }
  }

  lemma GoKeepsOther(c: Config, init: map<Path, Content>, s: State, p: nat, q: nat)
    requires c.locking && Once(c, init, s) && p in s.procs && q in s.procs && q != p
    ensures PcOk(c, init, Go1(c, s, p), q, s.procs[q])
  {
    hide PcOk, KeyOk, SameFor, Go1;
    assert PcOk(c, init, s, p, s.procs[p]) && PcOk(c, init, s, q, s.procs[q]);
    var pc := s.procs[q];
    if Changes(c, s, p) && s.procs[p].key == pc.key {
      ChangeKeepsOther(c, init, s, p, q);
    } else {
      if Changes(c, s, p) { ChangeFrame(c, s, p, pc.key); } else { QuietStep(c, s, p, pc.key); }
      SamePcOk(c, init, s, Go1(c, s, p), q, pc);
    }
  }

  lemma GoKeepsKey(c: Config, init: map<Path, Content>, s: State, p: nat, k: Key)
    requires c.locking && Inv(s) && Once(c, init, s) && p in s.procs
    ensures KeyOk(c, init, Go1(c, s, p), k)
  {
    hide PcOk, KeyOk, SameFor, Go1;
    assert KeyOk(c, init, s, k) && PcOk(c, init, s, p, s.procs[p]) && ProcOk(s.fs, p, s.procs[p]);
    if Changes(c, s, p) && s.procs[p].key == k {
      ChangeKeepsKey(c, init, s, p);
    } else {
      if Changes(c, s, p) { ChangeFrame(c, s, p, k); } else { QuietStep(c, s, p, k); }
      SameKeyOk(c, init, s, Go1(c, s, p), k);
    }
  }

  /** No failed system call and no eviction. */
  ghost predicate Calm(a: Action) { a.Begin? || a.Go? }

  lemma StepKeepsOnce(c: Config, init: map<Path, Content>, s: State, a: Action)
    requires c.locking && Inv(s) && Once(c, init, s) && Calm(a)
    ensures Once(c, init, Step(c, s, a))
  {
    hide PcOk, KeyOk, Go1;
    var s' := Step(c, s, a);
    if a.Go? && a.p in s.procs {
      GoMoves(c, s, a.p);
      GoKeepsSelf(c, init, s, a.p);
      forall q | q in s.procs && q != a.p
        ensures PcOk(c, init, s', q, s'.procs[q])
      {
        GoKeepsOther(c, init, s, a.p, q);
      }
      forall k ensures KeyOk(c, init, s', k) { GoKeepsKey(c, init, s, a.p, k); }
    } else if a.Begin? && a.p !in s.procs {
      BeginKeepsOnce(c, init, s, a.p, a.key);
    }
  }

  lemma BeginKeepsOnce(c: Config, init: map<Path, Content>, s: State, p: nat, k: Key)
    requires Once(c, init, s) && p !in s.procs
    ensures Once(c, init, At(s, p, Look(k, 0)))
  {
    var s' := At(s, p, Look(k, 0));
    forall q | q in s.procs ensures PcOk(c, init, s', q, s'.procs[q]) { SamePcOk(c, init, s, s', q, s.procs[q]); }
    forall k' ensures KeyOk(c, init, s', k') { SameKeyOk(c, init, s, s', k'); }
  }

  lemma {:induction false} RunKeepsOnce(c: Config, init: map<Path, Content>, s: State, as_: seq<Action>)
    requires c.locking && Inv(s) && Once(c, init, s) && forall a :: a in as_ ==> Calm(a)
    ensures Once(c, init, Run(c, s, as_))
    decreases |as_|
  {
    if as_ != [] {
      hide Once, Inv, Step;
      assert as_[0] in as_;
      StepKeepsInv(c, s, as_[0]);
      StepKeepsOnce(c, init, s, as_[0]);
      RunKeepsOnce(c, init, Step(c, s, as_[0]), as_[1..]);
    }
  }

  lemma InitiallyOnce(c: Config, s: State)
    requires Initial(s)
    ensures Once(c, s.fs, s)
  {
  }

  /** With a lock that excludes, no failed system call and no eviction, creation runs at most once per key over the
      whole run, however many roots are writable, and all processes that finish with a key hold the same content. */
  lemma CreatedOnce(c: Config, s: State, as_: seq<Action>)
    requires c.locking && Initial(s) && forall a :: a in as_ ==> Calm(a)
    ensures var s' := Run(c, s, as_);
            && (forall k :: s'.created[k] <= 1)
            && (forall k, r: nat :: r < |c.writable| && Entry(r, k) in s.fs ==> s'.created[k] == 0)
            && (forall p, q ::
                  && p in s'.procs && q in s'.procs && s'.procs[p].Done? && s'.procs[q].Done?
                  && s'.procs[p].key == s'.procs[q].key
                  ==> s'.procs[p].content == s'.procs[q].content)
  {
    InitiallyOnce(c, s);
    RunKeepsOnce(c, s.fs, s, as_);
    var s' := Run(c, s, as_);
    forall k ensures s'.created[k] <= 1 { assert KeyOk(c, s.fs, s', k); }
    forall k, r: nat | r < |c.writable| && Entry(r, k) in s.fs
      ensures s'.created[k] == 0
    {
      assert KeyOk(c, s.fs, s', k);
    }
    forall p, q | p in s'.procs && q in s'.procs && s'.procs[p].Done? && s'.procs[q].Done? &&
           s'.procs[p].key == s'.procs[q].key
      ensures s'.procs[p].content == s'.procs[q].content
    {
      assert PcOk(c, s.fs, s', p, s'.procs[p]) && PcOk(c, s.fs, s', q, s'.procs[q]);
    }
  }

  /** With the same assumptions, a process fails only if no root had its key and none may be filled, and a process that
      finishes has what the first root with the key held, or else what was created under the first writable root. */
  lemma EndsExactly(c: Config, s: State, as_: seq<Action>, p: nat)
    requires c.locking && Initial(s) && forall a :: a in as_ ==> Calm(a)
    requires p in Run(c, s, as_).procs
    ensures var (s', pc) := (Run(c, s, as_), Run(c, s, as_).procs[p]);
            && (pc.Failed? ==>
                  && (forall r: nat :: r < |c.writable| ==> Entry(r, pc.key) !in s.fs)
                  && (c.throwOnMiss || forall r :: 0 <= r < |c.writable| ==> !c.writable[r]))
            && (pc.Done? ==>
                  && pc.found < |c.writable| && Entry(pc.found, pc.key) in s'.fs
                  && s'.fs[Entry(pc.found, pc.key)] == pc.content && Whole(pc.content, pc.key)
                  && if Entry(pc.found, pc.key) in s.fs then
                       && pc.content == s.fs[Entry(pc.found, pc.key)]
                       && (forall r: nat :: r < pc.found ==> Entry(r, pc.key) !in s.fs)
                     else
                       && (forall r: nat :: r < |c.writable| ==> Entry(r, pc.key) !in s.fs)
                       && !c.throwOnMiss && c.writable[pc.found] && s'.created[pc.key] == 1
                       && (forall r :: 0 <= r < pc.found ==> !c.writable[r]))
  {
    InitiallyOnce(c, s);
    RunKeepsOnce(c, s.fs, s, as_);
    RunKeepsInv(c, s, as_);
    var s' := Run(c, s, as_);
    assert PcOk(c, s.fs, s', p, s'.procs[p]) && ProcOk(s'.fs, p, s'.procs[p]);
    assert KeyOk(c, s.fs, s', s'.procs[p].key);
  }

  // ---------------------------------------------------------------- nobody is stuck

  ghost predicate Finished(pc: Pc) { pc.Done? || pc.Failed? }

  ghost function Left(c: Config, i: nat): nat { if i < |c.writable| then |c.writable| - i else 0 }

  /** A bound on the steps a process has left. */
  ghost function Rank(c: Config, pc: Pc): nat {
    var n := |c.writable|;
    match pc
    case Look(_, i) => 3 * n + 9 + Left(c, i)
    case Choose(_, i) => 2 * n + 8 + Left(c, i)
    case Lock(_, _) => 2 * n + 7
    case LookAgain(_, _, i) => n + 6 + Left(c, i)
    case Stage(_, _) => n + 5
    case Write(_, _, _) => n + 4
    case Commit(_, _, _) => n + 3
    case Confirm(_, _, i) => 2 + Left(c, i)
    case Load(_, _, _) => 1
    case Done(_, _, _) => 0
    case Failed(_) => 0
  }

  /** Process `p` stands before a lock that is taken. */
  ghost predicate Blocked(c: Config, s: State, p: nat)
    requires p in s.procs
  {
    var pc := s.procs[p];
    c.locking && pc.Lock? && Slot(pc.root, pc.key) in s.locks
  }

  ghost predicate Within(pc: Pc, root: nat, key: Key) {
    || ((pc.LookAgain? || pc.Stage? || pc.Write? || pc.Commit? || pc.Confirm?) && pc.root == root && pc.key == key)
    || (pc.Load? && pc.held == Some(root) && pc.key == key)
  }

  /** Whoever holds the lock is at work behind it. */
  ghost predicate Guarded(s: State, l: Slot) {
    l in s.locks ==> s.locks[l] in s.procs && Within(s.procs[s.locks[l]], l.root, l.key)
  }

  ghost predicate Manned(s: State) { forall l :: Guarded(s, l) }

  lemma GoKeepsLock(c: Config, s: State, p: nat, l: Slot)
    requires p in s.procs && !s.procs[p].Lock? && l in Go1(c, s, p).locks
    ensures l in s.locks && Go1(c, s, p).locks[l] == s.locks[l]
  {
  }

  /** A process leaves the section behind a lock only by giving up the lock. */
  lemma GoStaysWithin(c: Config, s: State, p: nat, l: Slot)
    requires p in s.procs && Within(s.procs[p], l.root, l.key) && l in Go1(c, s, p).locks
    ensures p in Go1(c, s, p).procs && Within(Go1(c, s, p).procs[p], l.root, l.key)
  {
  }

  lemma TakingGuards(c: Config, s: State, p: nat, l: Slot)
    requires Guarded(s, l) && p in s.procs && s.procs[p].Lock?
    ensures Guarded(Go1(c, s, p), l)
  {
  }

  lemma GoKeepsGuarded(c: Config, s: State, p: nat, l: Slot)
    requires Guarded(s, l) && p in s.procs
    ensures Guarded(Go1(c, s, p), l)
  {
    GoMoves(c, s, p);
    hide Go1;
    if s.procs[p].Lock? {
      TakingGuards(c, s, p, l);
    } else if l in Go1(c, s, p).locks {
      GoKeepsLock(c, s, p, l);
      if s.locks[l] == p { GoStaysWithin(c, s, p, l); }
    }
  }

  lemma FaultKeepsGuarded(s: State, p: nat, l: Slot)
    requires Guarded(s, l) && p in s.procs
    ensures Guarded(Fault1(s, p), l)
  {
  }

  lemma StepKeepsManned(c: Config, s: State, a: Action)
    requires Manned(s)
    ensures Manned(Step(c, s, a))
  {
    hide Go1, Fault1;
    forall l ensures Guarded(Step(c, s, a), l) {
      assert Guarded(s, l);
      if a.Go? && a.p in s.procs { GoKeepsGuarded(c, s, a.p, l); }
      else if a.Fault? && a.p in s.procs { FaultKeepsGuarded(s, a.p, l); }
    }
  }

  lemma {:induction false} RunKeepsManned(c: Config, s: State, as_: seq<Action>)
    requires Manned(s)
    ensures Manned(Run(c, s, as_))
    decreases |as_|
  {
    if as_ != [] {
      hide Step, Manned;
      StepKeepsManned(c, s, as_[0]);
      RunKeepsManned(c, Step(c, s, as_[0]), as_[1..]);
    }
  }

  lemma GoProceeds(c: Config, s: State, p: nat)
    requires p in s.procs && !Finished(s.procs[p]) && !Blocked(c, s, p)
    ensures p in Go1(c, s, p).procs && Rank(c, Go1(c, s, p).procs[p]) < Rank(c, s.procs[p])
  {
    var pc := s.procs[p];
    if pc.Look? || pc.Choose? || pc.LookAgain? || pc.Confirm? { SearchProceeds(c, s, p); } else { hide Left; }
  }

  lemma SearchProceeds(c: Config, s: State, p: nat)
    requires p in s.procs
    requires s.procs[p].Look? || s.procs[p].Choose? || s.procs[p].LookAgain? || s.procs[p].Confirm?
    ensures p in Go1(c, s, p).procs && Rank(c, Go1(c, s, p).procs[p]) < Rank(c, s.procs[p])
  {
  }

  /** In every run, failed calls and evictions included, a step brings its process nearer to the end, unless it stands
      before a lock; then a step brings the holder of that lock nearer to its end. */
  lemma NobodyIsStuck(c: Config, s: State, as_: seq<Action>, p: nat)
    requires Initial(s) && p in Run(c, s, as_).procs && !Finished(Run(c, s, as_).procs[p])
    ensures var s' := Run(c, s, as_);
            var q := if Blocked(c, s', p) then s'.locks[Slot(s'.procs[p].root, s'.procs[p].key)] else p;
            && q in s'.procs && q in Go1(c, s', q).procs
            && Rank(c, Go1(c, s', q).procs[q]) < Rank(c, s'.procs[q]) <= 4 * |c.writable| + 9
  {
    RunKeepsManned(c, s, as_);
    var s' := Run(c, s, as_);
    var q := if Blocked(c, s', p) then s'.locks[Slot(s'.procs[p].root, s'.procs[p].key)] else p;
    assert s'.procs[p].Lock? ==> Guarded(s', Slot(s'.procs[p].root, s'.procs[p].key));
    GoProceeds(c, s', q);
    hide Go1;
  }

  // ---------------------------------------------------------------- one process at a time

  /** Process `p` takes `n` steps, nobody else any. */
  ghost function Alone(c: Config, s: State, p: nat, n: nat): State
    requires p in s.procs
    decreases n
  {
    if n == 0 then s else Alone(c, Go1(c, s, p), p, n - 1)
  }

  lemma {:induction false} AloneIsRun(c: Config, s: State, p: nat, n: nat)
    requires p in s.procs
    ensures Run(c, s, seq(n, _ => Go(p))) == Alone(c, s, p, n)
    decreases n
  {
    if n > 0 {
      hide Go1;
      assert seq(n, _ => Go(p))[1..] == seq(n - 1, _ => Go(p));
      AloneIsRun(c, Go1(c, s, p), p, n - 1);
    }
  }

  lemma AtAgain(s: State, p: nat, a: Pc, b: Pc)
    ensures At(At(s, p, a), p, b) == At(s, p, b)
  {
    assert s.procs[p := a][p := b] == s.procs[p := b];
  }

  /** Process `p`, if only it steps, gets to `end` and stays there. */
  ghost predicate Ends(c: Config, s: State, p: nat, end: State) {
    p in s.procs && forall n: nat :: n >= Rank(c, s.procs[p]) ==> Alone(c, s, p, n) == end
  }

  lemma {:induction false} FinishedStays(c: Config, s: State, p: nat, n: nat)
    requires p in s.procs && Finished(s.procs[p])
    ensures Alone(c, s, p, n) == s
    decreases n
  {
    if n > 0 { FinishedStays(c, s, p, n - 1); }
  }

  lemma FinishedEnds(c: Config, s: State, p: nat)
    requires p in s.procs && Finished(s.procs[p])
    ensures Ends(c, s, p, s)
  {
    forall n: nat ensures Alone(c, s, p, n) == s { FinishedStays(c, s, p, n); }
  }

  /** What ends after a step ends before it. */
  lemma StepEnds(c: Config, s: State, p: nat, s': State, end: State)
    requires p in s.procs && !Finished(s.procs[p]) && !Blocked(c, s, p) && Go1(c, s, p) == s' && Ends(c, s', p, end)
    ensures Ends(c, s, p, end)
  {
    GoProceeds(c, s, p);
    hide Go1, Rank;
    forall n: nat | n >= Rank(c, s.procs[p]) ensures Alone(c, s, p, n) == end {
      assert Alone(c, s, p, n) == Alone(c, s', p, n - 1);
    }
  }

  /** A step that changes nothing but where the process is. */
  lemma MoveEnds(c: Config, s: State, p: nat, a: Pc, b: Pc, end: State)
    requires !Finished(a) && !a.Lock? && Go1(c, At(s, p, a), p) == At(At(s, p, a), p, b) && Ends(c, At(s, p, b), p, end)
    ensures Ends(c, At(s, p, a), p, end)
  {
    AtAgain(s, p, a, b);
    assert At(s, p, a).procs[p] == a;
    hide Go1, At, Ends;
    StepEnds(c, At(s, p, a), p, At(s, p, b), end);
  }

  // Searches. A `get` is made before the lock or behind it.

  ghost predicate Seeks(pc: Pc, k: Key, held: Option<nat>) {
    || (pc.Look? && pc.key == k && held.None?)
    || ((pc.LookAgain? || pc.Confirm?) && pc.key == k && held == Some(pc.root))
  }

  /** The same search at root `j`. */
  ghost function AtRoot(pc: Pc, j: nat): Pc {
    match pc
    case Look(k, _) => Look(k, j)
    case Choose(k, _) => Choose(k, j)
    case LookAgain(k, r, _) => LookAgain(k, r, j)
    case Confirm(k, r, _) => Confirm(k, r, j)
    case _ => pc
  }

  lemma GetMisses(c: Config, s: State, p: nat, pc: Pc, k: Key, held: Option<nat>, j: nat, end: State)
    requires Seeks(pc, k, held) && j < |c.writable| && Entry(j, k) !in s.fs
    requires Ends(c, At(s, p, AtRoot(pc, j + 1)), p, end)
    ensures Ends(c, At(s, p, AtRoot(pc, j)), p, end)
  {
    hide Ends;
    MoveEnds(c, s, p, AtRoot(pc, j), AtRoot(pc, j + 1), end);
  }

  lemma GetHits(c: Config, s: State, p: nat, pc: Pc, k: Key, held: Option<nat>, j: nat, end: State)
    requires Seeks(pc, k, held) && j < |c.writable| && Entry(j, k) in s.fs
    requires Ends(c, At(s, p, Load(k, j, held)), p, end)
    ensures Ends(c, At(s, p, AtRoot(pc, j)), p, end)
  {
    hide Ends;
    MoveEnds(c, s, p, AtRoot(pc, j), Load(k, j, held), end);
  }

  /** A `get` ends as loading from the first root with the key does, or as its miss does. */
  lemma {:induction false} GetEnds(c: Config, s: State, p: nat, pc: Pc, k: Key, held: Option<nat>, i: nat, end: State)
    requires Seeks(pc, k, held) && i <= |c.writable|
    requires var hit := FirstHit(c, s.fs, k, i);
             Ends(c, At(s, p, if hit < |c.writable| then Load(k, hit, held) else AtRoot(pc, hit)), p, end)
    ensures Ends(c, At(s, p, AtRoot(pc, i)), p, end)
    decreases |c.writable| - i
  {
    hide Seeks, Ends, At, AtRoot;
    if i < |c.writable| {
      if Entry(i, k) in s.fs {
        GetHits(c, s, p, pc, k, held, i, end);
      } else {
        GetEnds(c, s, p, pc, k, held, i + 1, end);
        GetMisses(c, s, p, pc, k, held, i, end);
      }
    }
  }

  lemma Skips(c: Config, s: State, p: nat, k: Key, j: nat, end: State)
    requires j < |c.writable| && !c.writable[j] && Ends(c, At(s, p, Choose(k, j + 1)), p, end)
    ensures Ends(c, At(s, p, Choose(k, j)), p, end)
  {
    hide Ends;
    MoveEnds(c, s, p, Choose(k, j), Choose(k, j + 1), end);
  }

  lemma Chooses(c: Config, s: State, p: nat, k: Key, j: nat, end: State)
    requires j < |c.writable| && c.writable[j] && Ends(c, At(s, p, Lock(k, j)), p, end)
    ensures Ends(c, At(s, p, Choose(k, j)), p, end)
  {
    hide Ends;
    MoveEnds(c, s, p, Choose(k, j), Lock(k, j), end);
  }

  lemma GivesUp(c: Config, s: State, p: nat, k: Key, j: nat)
    requires j >= |c.writable|
    ensures Ends(c, At(s, p, Choose(k, j)), p, At(s, p, Failed(k)))
  {
    FinishedEnds(c, At(s, p, Failed(k)), p);
    hide Ends;
    MoveEnds(c, s, p, Choose(k, j), Failed(k), At(s, p, Failed(k)));
  }

  /** The choice of a root ends as the lock of the first writable one does. */
  lemma {:induction false} ChoiceEnds(c: Config, s: State, p: nat, k: Key, i: nat, end: State)
    requires i <= |c.writable|
    requires var r := FirstWritable(c, i);
             if r < |c.writable| then Ends(c, At(s, p, Lock(k, r)), p, end) else end == At(s, p, Failed(k))
    ensures Ends(c, At(s, p, Choose(k, i)), p, end)
    decreases |c.writable| - i
  {
    hide Ends, At;
    if i == |c.writable| { GivesUp(c, s, p, k, i); }
    else if c.writable[i] { Chooses(c, s, p, k, i, end); }
    else {
      ChoiceEnds(c, s, p, k, i + 1, end);
      Skips(c, s, p, k, i, end);
    }
  }

  // Locking and loading.

  /** Nobody is at work on the key. */
  ghost predicate Free(s: State, k: Key) { forall r: nat :: Slot(r, k) !in s.locks }

  /** The state with the lock of the entry taken, where there is locking. */
  ghost function Locked(c: Config, s: State, p: nat, r: nat, k: Key): (l: State)
    ensures l.fs == s.fs
  {
    if c.locking then s.(locks := s.locks[Slot(r, k) := p]) else s
  }

  lemma LockUndone(c: Config, s: State, p: nat, r: nat, k: Key)
    requires Free(s, k)
    ensures Unlocked(Locked(c, s, p, r, k), r, k) == s
  {
    assert s.locks[Slot(r, k) := p] - {Slot(r, k)} == s.locks;
    assert s.locks - {Slot(r, k)} == s.locks;
  }

  lemma LockEnds(c: Config, s: State, p: nat, r: nat, k: Key, end: State)
    requires Free(s, k) && Ends(c, At(Locked(c, s, p, r, k), p, LookAgain(k, r, 0)), p, end)
    ensures Ends(c, At(s, p, Lock(k, r)), p, end)
  {
    AtAgain(s, p, Lock(k, r), LookAgain(k, r, 0));
    hide Ends;
    StepEnds(c, At(s, p, Lock(k, r)), p, At(Locked(c, s, p, r, k), p, LookAgain(k, r, 0)), end);
  }

  /** The state of a process that has loaded the key from `root`. */
  ghost function FoundAt(s: State, p: nat, root: nat, k: Key): State
    requires Entry(root, k) in s.fs
  {
    At(s, p, Done(k, root, s.fs[Entry(root, k)]))
  }

  lemma LoadEnds(c: Config, s: State, p: nat, k: Key, hit: nat)
    requires Entry(hit, k) in s.fs
    ensures Ends(c, At(s, p, Load(k, hit, None)), p, FoundAt(s, p, hit, k))
  {
    FinishedEnds(c, FoundAt(s, p, hit, k), p);
    hide Ends;
    MoveEnds(c, s, p, Load(k, hit, None), Done(k, hit, s.fs[Entry(hit, k)]), FoundAt(s, p, hit, k));
  }

  lemma LockedLoadEnds(c: Config, s: State, p: nat, r: nat, k: Key, hit: nat)
    requires Free(s, k) && Entry(hit, k) in s.fs
    ensures Ends(c, At(Locked(c, s, p, r, k), p, Load(k, hit, Some(r))), p, FoundAt(s, p, hit, k))
  {
    LockUndone(c, s, p, r, k);
    AtAgain(s, p, Load(k, hit, Some(r)), Done(k, hit, s.fs[Entry(hit, k)]));
    FinishedEnds(c, FoundAt(s, p, hit, k), p);
    hide Ends;
    StepEnds(c, At(Locked(c, s, p, r, k), p, Load(k, hit, Some(r))), p, FoundAt(s, p, hit, k), FoundAt(s, p, hit, k));
  }

  // Creating.

  /** The state with the temporary file written. */
  ghost function Staged(s: State, p: nat, k: Key, f: Content): State {
    s.(fs := s.fs[Temp(p, s.nextTemp) := f], nextTemp := s.nextTemp + 1, created := s.created + multiset{k})
  }

  /** The state with the file in place and the temporary file gone. */
  ghost function Placed(s: State, p: nat, r: nat, k: Key): State {
    var t := s.nextTemp;
    s.(fs := (s.fs - {Temp(p, t)})[Entry(r, k) := Complete(k, t)], nextTemp := t + 1,
       created := s.created + multiset{k})
  }

  lemma StageSteps(c: Config, s: State, p: nat, r: nat, k: Key)
    ensures Go1(c, At(s, p, Stage(k, r)), p) == At(Staged(s, p, k, Partial), p, Write(k, r, s.nextTemp))
  {
    AtAgain(s, p, Stage(k, r), Write(k, r, s.nextTemp));
  }

  lemma WriteSteps(c: Config, s: State, p: nat, r: nat, k: Key)
    ensures var t := s.nextTemp;
            Go1(c, At(Staged(s, p, k, Partial), p, Write(k, r, t)), p) ==
            At(Staged(s, p, k, Complete(k, t)), p, Commit(k, r, t))
  {
    var t := s.nextTemp;
    AtAgain(s, p, Write(k, r, t), Commit(k, r, t));
    assert s.fs[Temp(p, t) := Partial][Temp(p, t) := Complete(k, t)] == s.fs[Temp(p, t) := Complete(k, t)];
  }

  lemma CommitSteps(c: Config, s: State, p: nat, r: nat, k: Key)
    ensures var t := s.nextTemp;
            Go1(c, At(Staged(s, p, k, Complete(k, t)), p, Commit(k, r, t)), p) ==
            At(Placed(s, p, r, k), p, Confirm(k, r, 0))
  {
    var t := s.nextTemp;
    AtAgain(s, p, Commit(k, r, t), Confirm(k, r, 0));
    assert s.fs[Temp(p, t) := Complete(k, t)] - {Temp(p, t)} == s.fs - {Temp(p, t)};
  }

  lemma CreationEnds(c: Config, s: State, p: nat, r: nat, k: Key, end: State)
    requires Ends(c, At(Placed(s, p, r, k), p, Confirm(k, r, 0)), p, end)
    ensures Ends(c, At(s, p, Stage(k, r)), p, end)
  {
    StageSteps(c, s, p, r, k);
    WriteSteps(c, s, p, r, k);
    CommitSteps(c, s, p, r, k);
    hide Go1, Ends, Staged, Placed;
    var t := s.nextTemp;
    var a := At(Staged(s, p, k, Partial), p, Write(k, r, t));
    var b := At(Staged(s, p, k, Complete(k, t)), p, Commit(k, r, t));
    StepEnds(c, b, p, At(Placed(s, p, r, k), p, Confirm(k, r, 0)), end);
    StepEnds(c, a, p, b, end);
    StepEnds(c, At(s, p, Stage(k, r)), p, a, end);
  }

  lemma HitWhenPlaced(c: Config, s: State, p: nat, r: nat, k: Key)
    requires Free(s, k) && FirstHit(c, s.fs, k) == |c.writable| > r
    ensures FirstHit(c, Placed(s, p, r, k).fs, k) == r && Free(Placed(s, p, r, k), k)
    ensures Placed(Locked(c, s, p, r, k), p, r, k) == Locked(c, Placed(s, p, r, k), p, r, k)
  {
  }

  lemma MissEnds(c: Config, s: State, p: nat, r: nat, k: Key, end: State)
    requires Free(s, k) && if c.throwOnMiss then end == At(s, p, Failed(k))
             else Ends(c, At(Locked(c, s, p, r, k), p, Stage(k, r)), p, end)
    ensures Ends(c, At(Locked(c, s, p, r, k), p, LookAgain(k, r, |c.writable|)), p, end)
  {
    var l, a := Locked(c, s, p, r, k), LookAgain(k, r, |c.writable|);
    if c.throwOnMiss {
      LockUndone(c, s, p, r, k);
      AtAgain(s, p, a, Failed(k));
      FinishedEnds(c, end, p);
      hide Ends;
      StepEnds(c, At(l, p, a), p, end, end);
    } else {
      hide Ends;
      MoveEnds(c, l, p, a, Stage(k, r), end);
    }
  }

  // The call as a whole.

  ghost function BehindLock(c: Config, s: State, p: nat, r: nat, k: Key): State {
    var hit := FirstHit(c, s.fs, k);
    if hit < |c.writable| then FoundAt(s, p, hit, k)
    else if c.throwOnMiss then At(s, p, Failed(k))
    else FoundAt(Placed(s, p, r, k), p, r, k)
  }

  lemma BehindLockEnds(c: Config, s: State, p: nat, r: nat, k: Key)
    requires Free(s, k) && r < |c.writable|
    ensures Ends(c, At(Locked(c, s, p, r, k), p, LookAgain(k, r, 0)), p, BehindLock(c, s, p, r, k))
  {
    var l, hit, pc := Locked(c, s, p, r, k), FirstHit(c, s.fs, k), LookAgain(k, r, 0);
    var end, w, sure := BehindLock(c, s, p, r, k), |c.writable|, Confirm(k, r, 0);
    assert Seeks(pc, k, Some(r)) && AtRoot(pc, 0) == pc && AtRoot(pc, w) == LookAgain(k, r, w);
    assert Seeks(sure, k, Some(r)) && AtRoot(sure, 0) == sure;
    hide Go1, Ends, At, AtRoot, Seeks, FirstHit, Locked, Placed, Free, FoundAt;
    if hit < w {
      LockedLoadEnds(c, s, p, r, k, hit);
    } else {
      if !c.throwOnMiss {
        HitWhenPlaced(c, s, p, r, k);
        LockedLoadEnds(c, Placed(s, p, r, k), p, r, k, r);
        GetEnds(c, Placed(l, p, r, k), p, sure, k, Some(r), 0, end);
        CreationEnds(c, l, p, r, k, end);
      }
      MissEnds(c, s, p, r, k, end);
    }
    GetEnds(c, l, p, pc, k, Some(r), 0, end);
  }

  /** What comes of trying the roots from `i` on. */
  ghost function TriedFrom(c: Config, s: State, p: nat, k: Key, i: nat): State
    requires i <= |c.writable|
  {
    var r := FirstWritable(c, i);
    if r < |c.writable| then BehindLock(c, s, p, r, k) else At(s, p, Failed(k))
  }

  lemma TrialsEnd(c: Config, s: State, p: nat, k: Key, i: nat)
    requires Free(s, k) && i <= |c.writable|
    ensures Ends(c, At(s, p, Choose(k, i)), p, TriedFrom(c, s, p, k, i))
  {
    hide Go1, Ends, At, FirstWritable, Locked, Free, BehindLock;
    var r := FirstWritable(c, i);
    if r < |c.writable| {
      BehindLockEnds(c, s, p, r, k);
      LockEnds(c, s, p, r, k, BehindLock(c, s, p, r, k));
    }
    ChoiceEnds(c, s, p, k, i, TriedFrom(c, s, p, k, i));
  }

  lemma FirstMissEnds(c: Config, s: State, p: nat, k: Key, end: State)
    requires if c.throwOnMiss then end == At(s, p, Failed(k)) else Ends(c, At(s, p, Choose(k, 0)), p, end)
    ensures Ends(c, At(s, p, Look(k, |c.writable|)), p, end)
  {
    if c.throwOnMiss { FinishedEnds(c, end, p); }
    hide Ends;
    MoveEnds(c, s, p, Look(k, |c.writable|), if c.throwOnMiss then Failed(k) else Choose(k, 0), end);
  }

  ghost function GotOrCreated(c: Config, s: State, p: nat, k: Key): State {
    var hit := FirstHit(c, s.fs, k);
    if hit < |c.writable| then FoundAt(s, p, hit, k)
    else if c.throwOnMiss then At(s, p, Failed(k))
    else TriedFrom(c, s, p, k, 0)
  }

  lemma CallEnds(c: Config, s: State, p: nat, k: Key)
    requires Free(s, k)
    ensures Ends(c, At(s, p, Look(k, 0)), p, GotOrCreated(c, s, p, k))
  {
    var w, hit, pc, end := |c.writable|, FirstHit(c, s.fs, k), Look(k, 0), GotOrCreated(c, s, p, k);
    assert Seeks(pc, k, None) && AtRoot(pc, 0) == pc && AtRoot(pc, w) == Look(k, w);
    hide Go1, Ends, At, AtRoot, Seeks, FirstHit, Free, FoundAt, TriedFrom;
    if hit < w {
      LoadEnds(c, s, p, k, hit);
    } else {
      if !c.throwOnMiss { TrialsEnd(c, s, p, k, 0); }
      FirstMissEnds(c, s, p, k, end);
    }
    GetEnds(c, s, p, pc, k, None, 0, end);
  }

  lemma EndsRun(c: Config, s: State, p: nat, end: State, a: Action, s1: State, n: nat)
    requires Step(c, s, a) == s1 && Ends(c, s1, p, end) && n >= Rank(c, s1.procs[p])
    ensures Run(c, s, [a] + seq(n, _ => Go(p))) == end
  {
    var rest := seq(n, _ => Go(p));
    assert ([a] + rest)[0] == a && ([a] + rest)[1..] == rest;
    AloneIsRun(c, s1, p, n);
    hide Step;
  }

  /** A call that nobody interferes with, in any state in which nobody is at work on the key, with or without locking:
      it returns what the first root with the key holds and changes nothing, or it fails because a miss throws or no
      root is writable, or it leaves a complete new file under the first writable root, and nothing else. */
  lemma GetsOrCreates(c: Config, s: State, p: nat, k: Key, n: nat)
    requires p !in s.procs && Free(s, k) && n >= 4 * |c.writable| + 9
    ensures var s' := Run(c, s, [Begin(p, k)] + seq(n, _ => Go(p)));
            var hit, w, f := FirstHit(c, s.fs, k), FirstWritable(c), Complete(k, s.nextTemp);
            if hit < |c.writable| then
              s' == s.(procs := s.procs[p := Done(k, hit, s.fs[Entry(hit, k)])])
            else if c.throwOnMiss || w == |c.writable| then
              s' == s.(procs := s.procs[p := Failed(k)])
            else
              && s'.procs == s.procs[p := Done(k, w, f)] && s'.locks == s.locks
              && s'.fs == (s.fs - {Temp(p, s.nextTemp)})[Entry(w, k) := f]
              && s'.created == s.created + multiset{k}
  {
    CallEnds(c, s, p, k);
    assert At(s, p, Look(k, 0)).procs[p] == Look(k, 0);
    hide Go1, Ends;
    EndsRun(c, s, p, GotOrCreated(c, s, p, k), Begin(p, k), At(s, p, Look(k, 0)), n);
  }

  /** What was evicted from the only root that had it is created anew by the next call. */
  lemma CreatedAnew(c: Config, s: State, p: nat, k: Key, r: nat, n: nat)
    requires p !in s.procs && Free(s, k) && n >= 4 * |c.writable| + 9
    requires forall j: nat :: j < |c.writable| && j != r ==> Entry(j, k) !in s.fs
    requires !c.throwOnMiss && FirstWritable(c) < |c.writable|
    ensures var s' := Run(c, s, [Evict(r, k)] + ([Begin(p, k)] + seq(n, _ => Go(p))));
            var (w, f) := (FirstWritable(c), Complete(k, s.nextTemp));
            && s'.procs == s.procs[p := Done(k, w, f)] && s'.created == s.created + multiset{k}
            && Entry(w, k) in s'.fs && s'.fs[Entry(w, k)] == f
            && forall j: nat :: j < |c.writable| && j != w ==> Entry(j, k) !in s'.fs
  {
    var s0, rest := Step(c, s, Evict(r, k)), [Begin(p, k)] + seq(n, _ => Go(p));
    assert ([Evict(r, k)] + rest)[0] == Evict(r, k) && ([Evict(r, k)] + rest)[1..] == rest;
    assert Run(c, s, [Evict(r, k)] + rest) == Run(c, s0, rest);
    hide Run;
    GetsOrCreates(c, s0, p, k, n);
  }

  lemma TriedFromIs(c: Config, s: State, p: nat, k: Key, i: nat)
    requires i <= |c.writable|
    ensures var (s', f) := (TriedFrom(c, s, p, k, i), Complete(k, s.nextTemp));
            var w, hit := FirstWritable(c, i), FirstHit(c, s.fs, k);
            if w < |c.writable| && hit < |c.writable| then
              s' == s.(procs := s.procs[p := Done(k, hit, s.fs[Entry(hit, k)])])
            else if c.throwOnMiss || w == |c.writable| then
              s' == s.(procs := s.procs[p := Failed(k)])
            else
              && s'.procs == s.procs[p := Done(k, w, f)] && s'.locks == s.locks
              && s'.fs == (s.fs - {Temp(p, s.nextTemp)})[Entry(w, k) := f]
              && s'.created == s.created + multiset{k}
  {
    hide FirstWritable, FirstHit;
  }

  lemma FaultIsCaught(s: State, p: nat, k: Key, r: nat)
    requires p in s.procs
    requires (s.procs[p] == Lock(k, r) && Free(s, k)) || (Within(s.procs[p], r, k) && !s.procs[p].Commit?)
    ensures Fault1(s, p) == At(Unlocked(s, r, k), p, Choose(k, r + 1))
  {
    if s.procs[p].Lock? { assert s.locks - {Slot(r, k)} == s.locks; }
  }

  lemma StepsTo(c: Config, s: State, p: nat, s0: State, k: Key, i: nat, n: nat)
    requires p in s.procs && Fault1(s, p) == At(s0, p, Choose(k, i)) && n >= 4 * |c.writable| + 9
    ensures Step(c, s, Fault(p)) == At(s0, p, Choose(k, i)) && n >= Rank(c, At(s0, p, Choose(k, i)).procs[p])
  {
    hide Fault1;
  }

  lemma FaultRun(c: Config, s: State, p: nat, k: Key, r: nat, n: nat)
    requires p in s.procs && r < |c.writable| && n >= 4 * |c.writable| + 9 && Free(Unlocked(s, r, k), k)
    requires (s.procs[p] == Lock(k, r) && Free(s, k)) || (Within(s.procs[p], r, k) && !s.procs[p].Commit?)
    ensures Run(c, s, [Fault(p)] + seq(n, _ => Go(p))) == TriedFrom(c, Unlocked(s, r, k), p, k, r + 1)
  {
    var s0 := Unlocked(s, r, k);
    var s1 := At(s0, p, Choose(k, r + 1));
    FaultIsCaught(s, p, k, r);
    StepsTo(c, s, p, s0, k, r + 1, n);
    hide *;
    TrialsEnd(c, s0, p, k, r + 1);
    EndsRun(c, s, p, TriedFrom(c, s0, p, k, r + 1), Fault(p), s1, n);
  }

  /** A call that fails behind the lock, other than the renaming, costs a root: the process gives the lock back, goes
      on to the next writable root and ends there. */
  lemma TriesNextRoot(c: Config, s: State, p: nat, k: Key, r: nat, n: nat)
    requires p in s.procs && r < |c.writable| && n >= 4 * |c.writable| + 9 && Free(Unlocked(s, r, k), k)
    requires (s.procs[p] == Lock(k, r) && Free(s, k)) || (Within(s.procs[p], r, k) && !s.procs[p].Commit?)
    ensures var (s0, w, hit) := (Unlocked(s, r, k), FirstWritable(c, r + 1), FirstHit(c, s.fs, k));
            var (s', f) := (Run(c, s, [Fault(p)] + seq(n, _ => Go(p))), Complete(k, s.nextTemp));
            if w < |c.writable| && hit < |c.writable| then
              s' == s0.(procs := s.procs[p := Done(k, hit, s.fs[Entry(hit, k)])])
            else if c.throwOnMiss || w == |c.writable| then
              s' == s0.(procs := s.procs[p := Failed(k)])
            else
              && s'.procs == s.procs[p := Done(k, w, f)] && s'.locks == s0.locks
              && s'.fs == (s.fs - {Temp(p, s.nextTemp)})[Entry(w, k) := f]
              && s'.created == s.created + multiset{k}
  {
    FaultRun(c, s, p, k, r, n);
    hide Run, TriedFrom, FirstWritable, FirstHit, Free, Within;
    TriedFromIs(c, Unlocked(s, r, k), p, k, r + 1);
  }

  /** Before the lock, and when renaming, a failed call ends the process, which holds no lock then. */
  lemma FailsElsewhere(c: Config, s: State, p: nat, n: nat)
    requires p in s.procs && !Finished(s.procs[p]) && Manned(s)
    requires !s.procs[p].Lock? && (s.procs[p].Commit? || forall r: nat :: !Within(s.procs[p], r, s.procs[p].key))
    ensures var s' := Run(c, s, [Fault(p)] + seq(n, _ => Go(p)));
            && s'.procs == s.procs[p := Failed(s.procs[p].key)] && s'.fs == s.fs && s'.created == s.created
            && s'.locks.Values <= s.locks.Values - {p}
  {
    var s1 := Fault1(s, p);
    var pc := s.procs[p];
    assert pc.LookAgain? || pc.Stage? || pc.Write? || pc.Confirm? ==> Within(pc, pc.root, pc.key);
    assert pc.Load? && pc.held.Some? ==> Within(pc, pc.held.value, pc.key);
    assert s1.procs == s.procs[p := Failed(pc.key)] && s1.fs == s.fs && s1.created == s.created;
    FinishedEnds(c, s1, p);
    StepKeepsManned(c, s, Fault(p));
    forall l | l in s1.locks ensures s1.locks[l] != p && l in s.locks && s.locks[l] == s1.locks[l] {
      assert Guarded(s1, l);
    }
    hide Go1, Fault1, Ends, Within;
    EndsRun(c, s, p, s1, Fault(p), s1, n);
  }
}
