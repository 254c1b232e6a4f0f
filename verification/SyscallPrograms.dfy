/** The four filter programs (calibration_supervisor.cpp) as rule lists, for any header set: a call the
    headers do not define contributes no block.  Each program's verdict is given by call name. */
module SyscallPrograms {
  import opened Results
  import opened SyscallFilter

  const EPERM: nat := 1
  const ENOENT: nat := 2
  const ENOSYS: nat := 38
  const EAFNOSUPPORT: nat := 97

  /** Calls by name: an index into the list of the names below. */
  type Syscall = nat

  const SYS_EXECVE: Syscall := 0
  const SYS_EXECVEAT: Syscall := 1
  const SYS_KILL: Syscall := 2
  const SYS_TKILL: Syscall := 3
  const SYS_TGKILL: Syscall := 4
  const SYS_RT_SIGQUEUEINFO: Syscall := 5
  const SYS_RT_TGSIGQUEUEINFO: Syscall := 6
  const SYS_PIDFD_OPEN: Syscall := 7
  const SYS_PIDFD_SEND_SIGNAL: Syscall := 8
  const SYS_PIDFD_GETFD: Syscall := 9
  const SYS_PTRACE: Syscall := 10
  const SYS_PROCESS_VM_READV: Syscall := 11
  const SYS_PROCESS_VM_WRITEV: Syscall := 12
  const SYS_KCMP: Syscall := 13
  const SYS_MOUNT: Syscall := 14
  const SYS_UMOUNT2: Syscall := 15
  const SYS_PIVOT_ROOT: Syscall := 16
  const SYS_SETNS: Syscall := 17
  const SYS_UNSHARE: Syscall := 18
  const SYS_OPEN: Syscall := 19
  const SYS_OPENAT: Syscall := 20
  const SYS_OPENAT2: Syscall := 21
  const SYS_IO_URING_SETUP: Syscall := 22
  const SYS_IO_URING_REGISTER: Syscall := 23
  const SYS_IO_URING_ENTER: Syscall := 24
  const SYS_FLOCK: Syscall := 25
  const SYS_CHMOD: Syscall := 26
  const SYS_FCHMOD: Syscall := 27
  const SYS_FCHMODAT: Syscall := 28
  const SYS_FCHMODAT2: Syscall := 29
  const SYS_CHOWN: Syscall := 30
  const SYS_FCHOWN: Syscall := 31
  const SYS_LCHOWN: Syscall := 32
  const SYS_FCHOWNAT: Syscall := 33
  const SYS_CHOWN32: Syscall := 34
  const SYS_FCHOWN32: Syscall := 35
  const SYS_LCHOWN32: Syscall := 36
  const SYS_UTIME: Syscall := 37
  const SYS_UTIMES: Syscall := 38
  const SYS_FUTIMESAT: Syscall := 39
  const SYS_UTIMENSAT: Syscall := 40
  const SYS_UTIMENSAT_TIME64: Syscall := 41
  const SYS_SETXATTR: Syscall := 42
  const SYS_LSETXATTR: Syscall := 43
  const SYS_FSETXATTR: Syscall := 44
  const SYS_SETXATTRAT: Syscall := 45
  const SYS_REMOVEXATTR: Syscall := 46
  const SYS_LREMOVEXATTR: Syscall := 47
  const SYS_FREMOVEXATTR: Syscall := 48
  const SYS_REMOVEXATTRAT: Syscall := 49
  const SYS_OPEN_BY_HANDLE_AT: Syscall := 50
  const SYS_SOCKET: Syscall := 51
  const SYS_SOCKETPAIR: Syscall := 52
  const SYS_CONNECT: Syscall := 53
  const SYS_ACCEPT: Syscall := 54
  const SYS_ACCEPT4: Syscall := 55
  const SYS_FORK: Syscall := 56
  const SYS_VFORK: Syscall := 57
  const SYS_CLONE3: Syscall := 58
  const SYS_CLONE: Syscall := 59
  const SYS_PRCTL: Syscall := 60
  const SYS_TRUNCATE: Syscall := 61
  const SYS_FTRUNCATE: Syscall := 62
  const SYS_CREAT: Syscall := 63

  /** Header constants.  `number` lacks the calls the headers do not define. */
  datatype Platform = Platform(
    arch: Word, x32Bit: Option<Word>, number: map<Syscall, Word>,
    cloneThread: Word, temporaryFile: Word, truncateFlag: Word, emptyPath: Word,
    unixDomain: Word, typeMask: Word, stream: Word, seqpacket: Word, parentDeathSignal: Word)

  ghost predicate DistinctNumbers(p: Platform) {
    forall s, t :: s != t && s in p.number && t in p.number ==> p.number[s] != p.number[t]
  }

  /** The block for a call, when the headers define it; the template's number is filled in. */
  function IfDefined(p: Platform, s: Syscall, template: Rule): seq<Rule> {
    if s in p.number then [template.(nr := p.number[s])] else []
  }

  function Denies(p: Platform, calls: seq<Syscall>, errno: nat): seq<Rule> {
    if calls == [] then []
    else IfDefined(p, calls[0], Deny(0, errno)) + Denies(p, calls[1..], errno)
  }

  const PROCESS_CALLS: seq<Syscall> :=
    [SYS_KILL, SYS_TKILL, SYS_TGKILL, SYS_RT_SIGQUEUEINFO, SYS_RT_TGSIGQUEUEINFO, SYS_PIDFD_OPEN,
     SYS_PIDFD_SEND_SIGNAL, SYS_PIDFD_GETFD, SYS_PTRACE, SYS_PROCESS_VM_READV, SYS_PROCESS_VM_WRITEV,
     SYS_KCMP, SYS_MOUNT, SYS_UMOUNT2, SYS_PIVOT_ROOT, SYS_SETNS, SYS_UNSHARE]

  const METADATA_CALLS: seq<Syscall> :=
    [SYS_IO_URING_SETUP, SYS_IO_URING_REGISTER, SYS_IO_URING_ENTER, SYS_FLOCK, SYS_CHMOD, SYS_FCHMOD,
     SYS_FCHMODAT, SYS_FCHMODAT2, SYS_CHOWN, SYS_FCHOWN, SYS_LCHOWN, SYS_FCHOWNAT, SYS_CHOWN32, SYS_FCHOWN32,
     SYS_LCHOWN32, SYS_UTIME, SYS_UTIMES, SYS_FUTIMESAT, SYS_UTIMENSAT, SYS_UTIMENSAT_TIME64, SYS_SETXATTR,
     SYS_LSETXATTR, SYS_FSETXATTR, SYS_SETXATTRAT, SYS_REMOVEXATTR, SYS_LREMOVEXATTR, SYS_FREMOVEXATTR,
     SYS_REMOVEXATTRAT, SYS_OPEN_BY_HANDLE_AT]

  /** The open calls: an unnamed temporary file is refused, and openat2 altogether. */
  function OpenSections(p: Platform): seq<seq<Rule>> {
    [IfDefined(p, SYS_OPEN, DenyFlag(0, 1, p.temporaryFile, EPERM)),
     IfDefined(p, SYS_OPENAT, DenyFlag(0, 2, p.temporaryFile, EPERM)),
     Denies(p, [SYS_OPENAT2], ENOSYS)]
  }

  function OpenRules(p: Platform): seq<Rule> { Flatten(OpenSections(p)) }

  function ThreadSections(p: Platform): seq<seq<Rule>> {
    [Denies(p, [SYS_CLONE3], ENOSYS), IfDefined(p, SYS_CLONE, ThreadOnly(0, p.cloneThread, EPERM))]
  }

  function ThreadRules(p: Platform): seq<Rule> { Flatten(ThreadSections(p)) }

  function SocketSections(p: Platform): seq<seq<Rule>> {
    [IfDefined(p, SYS_SOCKET, SocketKind(0, p.unixDomain, p.typeMask, p.seqpacket, EPERM)),
     IfDefined(p, SYS_SOCKETPAIR, SocketPairKind(0, p.unixDomain, p.typeMask, p.stream, p.seqpacket, EPERM)),
     Denies(p, [SYS_CONNECT], ENOENT),
     Denies(p, [SYS_ACCEPT, SYS_ACCEPT4], EPERM)]
  }

  function SocketRules(p: Platform): seq<Rule> { Flatten(SocketSections(p)) }

  function WorkerHead(p: Platform): seq<seq<Rule>> {
    [Denies(p, [SYS_EXECVE, SYS_EXECVEAT], EPERM), Denies(p, PROCESS_CALLS, EPERM), OpenRules(p)]
  }

  function WorkerTail(p: Platform): seq<seq<Rule>> {
    [Denies(p, METADATA_CALLS, EPERM), SocketRules(p), Denies(p, [SYS_FORK, SYS_VFORK], EPERM), ThreadRules(p)]
  }

  function WorkerRules(p: Platform): seq<Rule> { Flatten(WorkerHead(p)) + Flatten(WorkerTail(p)) }

  function PreMainSections(p: Platform): seq<seq<Rule>> {
    [Denies(p, [SYS_FORK, SYS_VFORK], EPERM), ThreadRules(p), OpenRules(p),
     Denies(p, PROCESS_CALLS, EPERM), Denies(p, METADATA_CALLS, EPERM)]
  }

  function TruncationSections(p: Platform): seq<seq<Rule>> {
    [Denies(p, [SYS_TRUNCATE, SYS_FTRUNCATE, SYS_CREAT], EPERM),
     IfDefined(p, SYS_OPEN, DenyFlag(0, 1, p.truncateFlag, EPERM)),
     IfDefined(p, SYS_OPENAT, DenyFlag(0, 2, p.truncateFlag, EPERM))]
  }

  // ----- matching by name ------------------------------------------------------------------------

  function OrElse(a: Option<Verdict>, b: Option<Verdict>): Option<Verdict> { if a.Some? then a else b }

  lemma {:induction false} FirstMatchConcat(a: seq<Rule>, b: seq<Rule>, d: Call)
    ensures FirstMatch(a + b, d) == OrElse(FirstMatch(a, d), FirstMatch(b, d))
  {
    if a == [] {
      assert a + b == b;
    } else {
      assert (a + b)[1..] == a[1..] + b;
      FirstMatchConcat(a[1..], b, d);
    }
  }

  function Flatten(sections: seq<seq<Rule>>): seq<Rule> {
    if sections == [] then [] else sections[0] + Flatten(sections[1..])
  }

  function FirstSection(sections: seq<seq<Rule>>, d: Call): Option<Verdict> {
    if sections == [] then None else OrElse(FirstMatch(sections[0], d), FirstSection(sections[1..], d))
  }

  lemma {:induction false} SectionsDecide(sections: seq<seq<Rule>>, d: Call)
    ensures FirstMatch(Flatten(sections), d) == FirstSection(sections, d)
  {
    if sections != [] {
      FirstMatchConcat(sections[0], Flatten(sections[1..]), d);
      SectionsDecide(sections[1..], d);
    }
  }

  // The verdict of a short list of sections, from the verdicts of its sections.
  lemma {:induction false} TwoSections(x: seq<seq<Rule>>, d: Call)
    requires |x| == 2
    ensures FirstMatch(Flatten(x), d) == OrElse(FirstMatch(x[0], d), FirstMatch(x[1], d))
  {
    SectionsDecide(x, d);
    assert FirstSection(x[1..], d) == OrElse(FirstMatch(x[1], d), FirstSection(x[1..][1..], d));
  }

  lemma {:induction false} ThreeSections(x: seq<seq<Rule>>, d: Call)
    requires |x| == 3
    ensures FirstMatch(Flatten(x), d)
         == OrElse(FirstMatch(x[0], d), OrElse(FirstMatch(x[1], d), FirstMatch(x[2], d)))
  {
    FirstMatchConcat(x[0], Flatten(x[1..]), d);
    TwoSections(x[1..], d);
  }

  lemma {:induction false} FourSections(x: seq<seq<Rule>>, d: Call)
    requires |x| == 4
    ensures FirstMatch(Flatten(x), d)
         == OrElse(FirstMatch(x[0], d), OrElse(FirstMatch(x[1], d),
            OrElse(FirstMatch(x[2], d), FirstMatch(x[3], d))))
  {
    FirstMatchConcat(x[0], Flatten(x[1..]), d);
    ThreeSections(x[1..], d);
  }

  lemma {:induction false} FiveSections(x: seq<seq<Rule>>, d: Call)
    requires |x| == 5
    ensures FirstMatch(Flatten(x), d)
         == OrElse(FirstMatch(x[0], d), OrElse(FirstMatch(x[1], d),
            OrElse(FirstMatch(x[2], d), OrElse(FirstMatch(x[3], d), FirstMatch(x[4], d)))))
  {
    FirstMatchConcat(x[0], Flatten(x[1..]), d);
    FourSections(x[1..], d);
  }

  ghost predicate Names(p: Platform, d: Call, s: Option<Syscall>) {
    if s.Some? then s.value in p.number && p.number[s.value] == d.nr
    else forall t :: t in p.number ==> p.number[t] != d.nr
  }

  /** A deny list decides exactly the calls it lists. */
  lemma {:induction false} DeniesDecide(p: Platform, calls: seq<Syscall>, errno: nat, d: Call, s: Option<Syscall>)
    requires DistinctNumbers(p) && Names(p, d, s)
    ensures FirstMatch(Denies(p, calls, errno), d)
         == if s.Some? && s.value in calls then Some(Errno(errno)) else None
  {
    if calls != [] {
      DeniesDecide(p, calls[1..], errno, d, s);
      var head := IfDefined(p, calls[0], Deny(0, errno));
      OneRule(p, calls[0], Deny(0, errno), d, s);
      FirstMatchConcat(head, Denies(p, calls[1..], errno), d);
    }
  }

  lemma {:induction false} OneRule(p: Platform, call: Syscall, template: Rule, d: Call, s: Option<Syscall>)
    requires DistinctNumbers(p) && Names(p, d, s)
    ensures FirstMatch(IfDefined(p, call, template), d)
         == if s == Some(call) then Decide(template.(nr := d.nr), d) else None
  {
    if call in p.number {
      var r := template.(nr := p.number[call]);
      assert FirstMatch([r][1..], d) == None;
      assert FirstMatch([r], d) == Decide(r, d);
    }
  }

  // ----- the verdicts by name --------------------------------------------------------------------

  function OpenVerdict(p: Platform, s: Syscall, d: Call): Option<Verdict> {
    if s == SYS_OPEN then (if BitAnd(d.args[1].low, p.temporaryFile) != 0 then Some(Errno(EPERM)) else None)
    else if s == SYS_OPENAT then (if BitAnd(d.args[2].low, p.temporaryFile) != 0 then Some(Errno(EPERM)) else None)
    else if s == SYS_OPENAT2 then Some(Errno(ENOSYS))
    else None
  }

  function ThreadVerdict(p: Platform, s: Syscall, d: Call): Option<Verdict> {
    if s == SYS_CLONE3 then Some(Errno(ENOSYS))
    else if s == SYS_CLONE then Some(if BitAnd(d.args[0].low, p.cloneThread) == 0 then Errno(EPERM) else Allow)
    else None
  }

  function SocketVerdict(p: Platform, s: Syscall, d: Call): Option<Verdict> {
    var domain, kind := d.args[0].low, BitAnd(d.args[1].low, p.typeMask);
    if s == SYS_SOCKET then Some(if domain == p.unixDomain && kind == p.seqpacket then Allow else Errno(EPERM))
    else if s == SYS_SOCKETPAIR then
      Some(if domain == p.unixDomain && (kind == p.stream || kind == p.seqpacket) then Allow else Errno(EPERM))
    else if s == SYS_CONNECT then Some(Errno(ENOENT))
    else if s == SYS_ACCEPT then Some(Errno(EPERM))
    else if s == SYS_ACCEPT4 then Some(Errno(EPERM))
    else None
  }

  lemma {:induction false} OpenRulesDecide(p: Platform, d: Call, s: Option<Syscall>)
    requires DistinctNumbers(p) && Names(p, d, s)
    ensures FirstMatch(OpenRules(p), d) == if s.Some? then OpenVerdict(p, s.value, d) else None
  {
    OneRule(p, SYS_OPEN, DenyFlag(0, 1, p.temporaryFile, EPERM), d, s);
    OneRule(p, SYS_OPENAT, DenyFlag(0, 2, p.temporaryFile, EPERM), d, s);
    DeniesDecide(p, [SYS_OPENAT2], ENOSYS, d, s);
    ThreeSections(OpenSections(p), d);
  }

  lemma {:induction false} ThreadRulesDecide(p: Platform, d: Call, s: Option<Syscall>)
    requires DistinctNumbers(p) && Names(p, d, s)
    ensures FirstMatch(ThreadRules(p), d) == if s.Some? then ThreadVerdict(p, s.value, d) else None
  {
    DeniesDecide(p, [SYS_CLONE3], ENOSYS, d, s);
    OneRule(p, SYS_CLONE, ThreadOnly(0, p.cloneThread, EPERM), d, s);
    TwoSections(ThreadSections(p), d);
  }

  lemma {:induction false} SocketRulesDecide(p: Platform, d: Call, s: Option<Syscall>)
    requires DistinctNumbers(p) && Names(p, d, s)
    ensures FirstMatch(SocketRules(p), d) == if s.Some? then SocketVerdict(p, s.value, d) else None
  {
    OneRule(p, SYS_SOCKET, SocketKind(0, p.unixDomain, p.typeMask, p.seqpacket, EPERM), d, s);
    OneRule(p, SYS_SOCKETPAIR, SocketPairKind(0, p.unixDomain, p.typeMask, p.stream, p.seqpacket, EPERM), d, s);
    DeniesDecide(p, [SYS_CONNECT], ENOENT, d, s);
    DeniesDecide(p, [SYS_ACCEPT, SYS_ACCEPT4], EPERM, d, s);
    FourSections(SocketSections(p), d);
  }

  function Denied(calls: seq<Syscall>, s: Syscall): Option<Verdict> {
    if s in calls then Some(Errno(EPERM)) else None
  }

  function WorkerHeadMatch(p: Platform, s: Syscall, d: Call): Option<Verdict> {
    OrElse(Denied([SYS_EXECVE, SYS_EXECVEAT], s), OrElse(Denied(PROCESS_CALLS, s), OpenVerdict(p, s, d)))
  }

  function WorkerTailMatch(p: Platform, s: Syscall, d: Call): Option<Verdict> {
    OrElse(Denied(METADATA_CALLS, s), OrElse(SocketVerdict(p, s, d),
    OrElse(Denied([SYS_FORK, SYS_VFORK], s), ThreadVerdict(p, s, d))))
  }

  /** What the worker's rules say about a named call. */
  function WorkerMatch(p: Platform, s: Syscall, d: Call): Option<Verdict> {
    OrElse(WorkerHeadMatch(p, s, d), WorkerTailMatch(p, s, d))
  }

  function WorkerVerdict(p: Platform, s: Syscall, d: Call): Verdict {
    var v := WorkerMatch(p, s, d);
    if v.Some? then v.value
    else if s == SYS_PRCTL && d.args[0].low == p.parentDeathSignal then Errno(EPERM)
    else Allow
  }

  function PreMainMatch(p: Platform, s: Syscall, d: Call): Option<Verdict> {
    OrElse(Denied([SYS_FORK, SYS_VFORK], s), OrElse(ThreadVerdict(p, s, d), OrElse(OpenVerdict(p, s, d),
    OrElse(Denied(PROCESS_CALLS, s), Denied(METADATA_CALLS, s)))))
  }

  function PreMainVerdict(p: Platform, s: Syscall, d: Call): Verdict {
    var v := PreMainMatch(p, s, d);
    if v.Some? then v.value
    else if s == SYS_SOCKET && d.args[0].low != p.unixDomain then Errno(EAFNOSUPPORT)
    else Allow
  }

  function TruncationMatch(p: Platform, s: Syscall, d: Call): Option<Verdict> {
    if s in [SYS_TRUNCATE, SYS_FTRUNCATE, SYS_CREAT]
       || (s == SYS_OPEN && BitAnd(d.args[1].low, p.truncateFlag) != 0)
       || (s == SYS_OPENAT && BitAnd(d.args[2].low, p.truncateFlag) != 0)
    then Some(Errno(EPERM)) else None
  }

  // The two lists are the runs 2 to 18 and 22 to 50 of the names above, none left out.
  lemma {:induction false} ProcessRange(s: Syscall)
    ensures s in PROCESS_CALLS <==> SYS_KILL <= s <= SYS_UNSHARE
  {
    if 2 <= s <= 18 {
      assert PROCESS_CALLS[s - 2] == s;
    }
  }

  lemma {:induction false} MetadataRange(s: Syscall)
    ensures s in METADATA_CALLS <==> SYS_IO_URING_SETUP <= s <= SYS_OPEN_BY_HANDLE_AT
  {
    if 22 <= s <= 50 {
      assert METADATA_CALLS[s - 22] == s;
    }
  }

  /** The worker's verdict call by call, by the numbers of the names: 0 to 18, 22 to 50 and 54 to 57 are refused
      outright, eight more depend on their arguments or have an error of their own, and the rest is allowed. */
  lemma {:induction false} WorkerVerdictByNumber(p: Platform, s: Syscall, d: Call)
    ensures WorkerVerdict(p, s, d) ==
      if s <= 18 || 22 <= s <= 50 || 54 <= s <= 57 then Errno(1)
      else if s == 19 then (if BitAnd(d.args[1].low, p.temporaryFile) != 0 then Errno(1) else Allow)
      else if s == 20 then (if BitAnd(d.args[2].low, p.temporaryFile) != 0 then Errno(1) else Allow)
      else if s == 21 || s == 58 then Errno(38)
      else if s == 51 then
        (if d.args[0].low == p.unixDomain && BitAnd(d.args[1].low, p.typeMask) == p.seqpacket then Allow else Errno(1))
      else if s == 52 then
        (if d.args[0].low == p.unixDomain && BitAnd(d.args[1].low, p.typeMask) in [p.stream, p.seqpacket]
         then Allow else Errno(1))
      else if s == 53 then Errno(2)
      else if s == 59 then (if BitAnd(d.args[0].low, p.cloneThread) == 0 then Errno(1) else Allow)
      else if s == 60 then (if d.args[0].low == p.parentDeathSignal then Errno(1) else Allow)
      else Allow
  {
    ProcessRange(s);
    MetadataRange(s);
    hide BitAnd, PROCESS_CALLS, METADATA_CALLS;
  }

  /** The pre-main verdict call by call: it leaves exec alone and restricts sockets to the local domain only. */
  lemma {:induction false} PreMainVerdictByNumber(p: Platform, s: Syscall, d: Call)
    ensures PreMainVerdict(p, s, d) ==
      if 2 <= s <= 18 || 22 <= s <= 50 || 56 <= s <= 57 then Errno(1)
      else if s == 19 then (if BitAnd(d.args[1].low, p.temporaryFile) != 0 then Errno(1) else Allow)
      else if s == 20 then (if BitAnd(d.args[2].low, p.temporaryFile) != 0 then Errno(1) else Allow)
      else if s == 21 || s == 58 then Errno(38)
      else if s == 51 then (if d.args[0].low != p.unixDomain then Errno(97) else Allow)
      else if s == 59 then (if BitAnd(d.args[0].low, p.cloneThread) == 0 then Errno(1) else Allow)
      else Allow
  {
    ProcessRange(s);
    MetadataRange(s);
    hide BitAnd, PROCESS_CALLS, METADATA_CALLS;
  }

  predicate Native(p: Platform, d: Call) {
    d.arch == p.arch && (p.x32Bit.Some? ==> BitAnd(d.nr, p.x32Bit.value) == 0)
  }

  function WorkerProgram(p: Platform, prctl: Word): seq<Instr> {
    Program(p.arch, p.x32Bit, WorkerRules(p), DenyOption(prctl, p.parentDeathSignal, EPERM))
  }

  function PreMainProgram(p: Platform, socket: Word): seq<Instr> {
    Program(p.arch, p.x32Bit, Flatten(PreMainSections(p)), OnlyDomain(socket, p.unixDomain, EAFNOSUPPORT))
  }

  function TruncationProgram(p: Platform): seq<Instr> {
    Program(p.arch, p.x32Bit, Flatten(TruncationSections(p)), AllowRest)
  }

  function InitialExecProgram(p: Platform, execve: Word, execveat: Word, descriptor: Word): seq<Instr> {
    Program(p.arch, None, [Deny(execve, EPERM)], ExecOnlyDescriptor(execveat, descriptor, p.emptyPath, EPERM))
  }

  lemma {:induction false} WorkerHeadDecide(p: Platform, d: Call, s: Option<Syscall>)
    requires DistinctNumbers(p) && Names(p, d, s)
    ensures FirstMatch(Flatten(WorkerHead(p)), d) == if s.Some? then WorkerHeadMatch(p, s.value, d) else None
  {
    DeniesDecide(p, [SYS_EXECVE, SYS_EXECVEAT], EPERM, d, s);
    DeniesDecide(p, PROCESS_CALLS, EPERM, d, s);
    OpenRulesDecide(p, d, s);
    ThreeSections(WorkerHead(p), d);
  }

  lemma {:induction false} WorkerTailDecide(p: Platform, d: Call, s: Option<Syscall>)
    requires DistinctNumbers(p) && Names(p, d, s)
    ensures FirstMatch(Flatten(WorkerTail(p)), d) == if s.Some? then WorkerTailMatch(p, s.value, d) else None
  {
    DeniesDecide(p, METADATA_CALLS, EPERM, d, s);
    SocketRulesDecide(p, d, s);
    DeniesDecide(p, [SYS_FORK, SYS_VFORK], EPERM, d, s);
    ThreadRulesDecide(p, d, s);
    FourSections(WorkerTail(p), d);
  }

  lemma {:induction false} WorkerRulesDecide(p: Platform, d: Call, s: Option<Syscall>)
    requires DistinctNumbers(p) && Names(p, d, s)
    ensures FirstMatch(WorkerRules(p), d) == if s.Some? then WorkerMatch(p, s.value, d) else None
  {
    WorkerHeadDecide(p, d, s);
    WorkerTailDecide(p, d, s);
    FirstMatchConcat(Flatten(WorkerHead(p)), Flatten(WorkerTail(p)), d);
  }

  lemma {:induction false} PreMainRulesDecide(p: Platform, d: Call, s: Option<Syscall>)
    requires DistinctNumbers(p) && Names(p, d, s)
    ensures FirstMatch(Flatten(PreMainSections(p)), d) == if s.Some? then PreMainMatch(p, s.value, d) else None
  {
    DeniesDecide(p, [SYS_FORK, SYS_VFORK], EPERM, d, s);
    ThreadRulesDecide(p, d, s);
    OpenRulesDecide(p, d, s);
    DeniesDecide(p, PROCESS_CALLS, EPERM, d, s);
    DeniesDecide(p, METADATA_CALLS, EPERM, d, s);
    FiveSections(PreMainSections(p), d);
  }

  lemma {:induction false} TruncationRulesDecide(p: Platform, d: Call, s: Option<Syscall>)
    requires DistinctNumbers(p) && Names(p, d, s)
    ensures FirstMatch(Flatten(TruncationSections(p)), d)
         == if s.Some? then TruncationMatch(p, s.value, d) else None
  {
    ThreeSections(TruncationSections(p), d);
    DeniesDecide(p, [SYS_TRUNCATE, SYS_FTRUNCATE, SYS_CREAT], EPERM, d, s);
    OneRule(p, SYS_OPEN, DenyFlag(0, 1, p.truncateFlag, EPERM), d, s);
    OneRule(p, SYS_OPENAT, DenyFlag(0, 2, p.truncateFlag, EPERM), d, s);
  }

  /** A program whose rules are known to match `m` returns that, else what its ending says. */
  lemma {:induction false} ProgramVerdict(p: Platform, rules: seq<Rule>, ending: Ending, d: Call, m: Option<Verdict>)
    requires FirstMatch(rules, d) == m
    ensures RunAt(Program(p.arch, p.x32Bit, rules, ending), 0, 0, d)
         == Some(if !Native(p, d) then KillProcess else if m.Some? then m.value else DecideEnding(ending, d))
  {
    ProgramCorrect(p.arch, p.x32Bit, rules, ending, d);
  }

  /** install_worker_syscall_filter: every native call gets the verdict of its name, every other native
      call is allowed, and a foreign call kills the process. */
  lemma {:induction false} WorkerProgramVerdict(p: Platform, d: Call, s: Option<Syscall>)
    requires DistinctNumbers(p) && Names(p, d, s) && SYS_PRCTL in p.number
    ensures RunAt(WorkerProgram(p, p.number[SYS_PRCTL]), 0, 0, d)
         == Some(if !Native(p, d) then KillProcess else if s.Some? then WorkerVerdict(p, s.value, d) else Allow)
  {
    var m := if s.Some? then WorkerMatch(p, s.value, d) else None;
    WorkerRulesDecide(p, d, s);
    ProgramVerdict(p, WorkerRules(p), DenyOption(p.number[SYS_PRCTL], p.parentDeathSignal, EPERM), d, m);
  }

  /** install_worker_pre_main_filter. */
  lemma {:induction false} PreMainProgramVerdict(p: Platform, d: Call, s: Option<Syscall>)
    requires DistinctNumbers(p) && Names(p, d, s) && SYS_SOCKET in p.number
    ensures RunAt(PreMainProgram(p, p.number[SYS_SOCKET]), 0, 0, d)
         == Some(if !Native(p, d) then KillProcess else if s.Some? then PreMainVerdict(p, s.value, d) else Allow)
  {
    var m := if s.Some? then PreMainMatch(p, s.value, d) else None;
    PreMainRulesDecide(p, d, s);
    ProgramVerdict(p, Flatten(PreMainSections(p)), OnlyDomain(p.number[SYS_SOCKET], p.unixDomain, EAFNOSUPPORT), d, m);
  }

  /** install_legacy_landlock_truncation_filter. */
  lemma {:induction false} TruncationProgramVerdict(p: Platform, d: Call, s: Option<Syscall>)
    requires DistinctNumbers(p) && Names(p, d, s)
    ensures RunAt(TruncationProgram(p), 0, 0, d)
         == Some(if !Native(p, d) then KillProcess
                 else if s.Some? && TruncationMatch(p, s.value, d).Some? then Errno(EPERM) else Allow)
  {
    var m := if s.Some? then TruncationMatch(p, s.value, d) else None;
    TruncationRulesDecide(p, d, s);
    ProgramVerdict(p, Flatten(TruncationSections(p)), AllowRest, d, m);
  }

  /** install_initial_exec_filter: of the exec calls only the pinned descriptor with an empty path and
      no upper flag bits passes. */
  lemma {:induction false} InitialExecVerdict(p: Platform, execve: Word, execveat: Word, descriptor: Word, d: Call)
    requires execve != execveat
    ensures var pinned := d.args[0].low == descriptor && d.args[4] == Argument(p.emptyPath, 0);
      RunAt(InitialExecProgram(p, execve, execveat, descriptor), 0, 0, d)
      == Some(if d.arch != p.arch then KillProcess
              else if d.nr == execve || (d.nr == execveat && !pinned) then Errno(EPERM) else Allow)
  {
    ProgramCorrect(p.arch, None, [Deny(execve, EPERM)],
                   ExecOnlyDescriptor(execveat, descriptor, p.emptyPath, EPERM), d);
    assert FirstMatch([Deny(execve, EPERM)][1..], d) == None;
  }
}
