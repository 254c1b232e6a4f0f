/** The worker's seccomp programs (calibration_supervisor.cpp): classic-BPF code with relative forward
    jumps, generated from an ordered list of rules by macros.  The interpreter is the kernel's; the
    theorem is that expanding any rule list gives a program that always returns, and returns the
    verdict of the first rule that applies. */
module SyscallFilter {
  import opened Arithmetic
  import opened Results

  type Word = nat

  /** Bitwise conjunction of words. */
  function BitAnd(a: Word, b: Word): Word {
    if a == 0 || b == 0 then 0 else 2 * BitAnd(a / 2, b / 2) + (if a % 2 == 1 && b % 2 == 1 then 1 else 0)
  }

  /** Digit by digit, and only where both words have a one. */
  lemma {:induction false} BitAndDigits(a: Word, b: Word, k: nat)
    ensures Digit(BitAnd(a, b), k) == if Digit(a, k) == 1 && Digit(b, k) == 1 then 1 else 0
  {
    if a == 0 || b == 0 {
      ZeroDigits(k);
    } else if k > 0 {
      assert BitAnd(a, b) / 2 == BitAnd(a / 2, b / 2);
      BitAndDigits(a / 2, b / 2, k - 1);
    }
  }

  lemma {:induction false} ZeroDigits(k: nat)
    ensures Digit(0, k) == 0
  {
    if k > 0 {
      ZeroDigits(k - 1);
    }
  }

  datatype Argument = Argument(low: Word, high: Word)

  datatype Data = Data(arch: Word, nr: Word, args: seq<Argument>) {
    ghost predicate Valid() { |args| == 6 }
  }

  type Call = d: Data | d.Valid() witness Data(0, 0, seq(6, _ => Argument(0, 0)))

  datatype Verdict = KillProcess | Errno(code: nat) | Allow

  datatype Field = Arch | Number | Low(index: nat) | High(index: nat)

  datatype Instr =
    | Load(field: Field)
    | And(k: Word)
    | JumpEq(k: Word, ifTrue: nat, ifFalse: nat)
    | JumpSet(k: Word, ifTrue: nat, ifFalse: nat)
    | Return(verdict: Verdict)

  function Fetch(f: Field, d: Call): Word {
    match f
    case Arch => d.arch
    case Number => d.nr
    case Low(i) => if i < 6 then d.args[i].low else 0
    case High(i) => if i < 6 then d.args[i].high else 0
  }

  /** Instructions to move forward after a step that does not return. */
  function Advance(i: Instr, acc: Word): (n: nat)
    ensures n > 0
  {
    match i
    case JumpEq(k, t, f) => 1 + if acc == k then t else f
    case JumpSet(k, t, f) => 1 + if BitAnd(acc, k) != 0 then t else f
    case _ => 1
  }

  function NextAcc(i: Instr, acc: Word, d: Call): Word {
    match i
    case Load(f) => Fetch(f, d)
    case And(k) => BitAnd(acc, k)
    case _ => acc
  }

  /** The kernel's interpreter, on a program counter.  Running off the end gives no verdict. */
  function RunAt(program: seq<Instr>, pc: nat, acc: Word, d: Call): Option<Verdict>
    decreases |program| - pc
  {
    if pc >= |program| then None
    else if program[pc].Return? then Some(program[pc].verdict)
    else RunAt(program, pc + Advance(program[pc], acc), NextAcc(program[pc], acc, d), d)
  }

  /** The same run seen as the code still ahead: a forward jump only drops instructions. */
  function Run(code: seq<Instr>, acc: Word, d: Call): Option<Verdict>
    decreases |code|
  {
    if code == [] then None
    else if code[0].Return? then Some(code[0].verdict)
    else Run(Skip(code, Advance(code[0], acc)), NextAcc(code[0], acc, d), d)
  }

  function Skip(code: seq<Instr>, n: nat): (r: seq<Instr>)
    ensures n > 0 && code != [] ==> |r| < |code|
  {
    if n <= |code| then code[n..] else []
  }

  /** One step of the run on the suffix from `i`, with jumps counted in the whole code. */
  lemma {:induction false} Step(code: seq<Instr>, i: nat, acc: Word, d: Call)
    requires i < |code|
    ensures Run(code[i..], acc, d)
         == if code[i].Return? then Some(code[i].verdict)
            else Run(Skip(code, i + Advance(code[i], acc)), NextAcc(code[i], acc, d), d)
  {
    var ahead := code[i..];
    assert ahead[0] == code[i];
    assert Skip(ahead, Advance(code[i], acc)) == Skip(code, i + Advance(code[i], acc));
  }

  /** Running on a program counter and running on the remaining code agree. */
  lemma {:induction false} RunAtIsRun(program: seq<Instr>, pc: nat, acc: Word, d: Call)
    ensures RunAt(program, pc, acc, d) == Run(Skip(program, pc), acc, d)
    decreases |program| - pc
  {
    if pc < |program| {
      Step(program, pc, acc, d);
      if !program[pc].Return? {
        RunAtIsRun(program, pc + Advance(program[pc], acc), NextAcc(program[pc], acc, d), d);
      }
    }
  }

  // ----- rules --------------------------------------------------------------------------------------

  /** One self-contained block of the programs.  `nr` is the call the block looks for. */
  datatype Rule =
    | Deny(nr: Word, errno: nat)
    | DenyFlag(nr: Word, arg: nat, mask: Word, errno: nat)
    | ThreadOnly(nr: Word, mask: Word, errno: nat)
    | SocketKind(nr: Word, domain: Word, mask: Word, kind: Word, errno: nat)
    | SocketPairKind(nr: Word, domain: Word, mask: Word, kind1: Word, kind2: Word, errno: nat)

  /** The instructions a rule's macro or inline block stands for, jump offsets as written. */
  function Expand(r: Rule): seq<Instr> {
    match r
    case Deny(nr, e) =>
      [JumpEq(nr, 0, 1), Return(Errno(e))]
    case DenyFlag(nr, arg, mask, e) =>
      [JumpEq(nr, 0, 4), Load(Low(arg)), JumpSet(mask, 0, 1), Return(Errno(e)), Load(Number)]
    case ThreadOnly(nr, mask, e) =>
      [JumpEq(nr, 0, 5), Load(Low(0)), And(mask), JumpEq(0, 0, 1), Return(Errno(e)), Return(Allow)]
    case SocketKind(nr, domain, mask, kind, e) =>
      [JumpEq(nr, 0, 7), Load(Low(0)), JumpEq(domain, 0, 4), Load(Low(1)), And(mask),
       JumpEq(kind, 0, 1), Return(Allow), Return(Errno(e))]
    case SocketPairKind(nr, domain, mask, kind1, kind2, e) =>
      [JumpEq(nr, 0, 8), Load(Low(0)), JumpEq(domain, 0, 4), Load(Low(1)), And(mask),
       JumpEq(kind1, 2, 0), JumpEq(kind2, 1, 0), Return(Errno(e)), Return(Allow)]
  }

  /** What a rule decides about a call; None passes it on to the next rule. */
  function Decide(r: Rule, d: Call): Option<Verdict> {
    if d.nr != r.nr then None
    else match r
      case Deny(_, e) => Some(Errno(e))
      case DenyFlag(_, arg, mask, e) => if BitAnd(Fetch(Low(arg), d), mask) != 0 then Some(Errno(e)) else None
      case ThreadOnly(_, mask, e) => Some(if BitAnd(d.args[0].low, mask) == 0 then Errno(e) else Allow)
      case SocketKind(_, domain, mask, kind, e) =>
        Some(if d.args[0].low == domain && BitAnd(d.args[1].low, mask) == kind then Allow else Errno(e))
      case SocketPairKind(_, domain, mask, kind1, kind2, e) =>
        Some(if d.args[0].low == domain && (BitAnd(d.args[1].low, mask) == kind1 || BitAnd(d.args[1].low, mask) == kind2)
             then Allow else Errno(e))
  }

  function Assemble(rules: seq<Rule>): seq<Instr> {
    if rules == [] then [] else Expand(rules[0]) + Assemble(rules[1..])
  }

  function FirstMatch(rules: seq<Rule>, d: Call): Option<Verdict> {
    if rules == [] then None
    else if Decide(rules[0], d).Some? then Decide(rules[0], d)
    else FirstMatch(rules[1..], d)
  }

  /** Entered with the call number loaded, a block either returns its rule's verdict or reaches the
      code behind it with the call number loaded again. */
  lemma {:induction false} BlockCorrect(r: Rule, rest: seq<Instr>, d: Call)
    ensures Run(Expand(r) + rest, d.nr, d)
         == if Decide(r, d).Some? then Decide(r, d) else Run(rest, d.nr, d)
  {
    hide Run, BitAnd;
    var code := Expand(r) + rest;
    assert code[0..] == code && Skip(code, |Expand(r)|) == rest;
    Step(code, 0, d.nr, d);
    if d.nr == r.nr {
      match r
      case Deny(_, _) =>
        Step(code, 1, d.nr, d);
      case DenyFlag(_, arg, mask, _) =>
        Step(code, 1, d.nr, d);
        Step(code, 2, Fetch(Low(arg), d), d);
        Step(code, 3, Fetch(Low(arg), d), d);
        Step(code, 4, Fetch(Low(arg), d), d);
      case ThreadOnly(_, mask, _) =>
        Step(code, 1, d.nr, d);
        Step(code, 2, d.args[0].low, d);
        Step(code, 3, BitAnd(d.args[0].low, mask), d);
        Step(code, 4, BitAnd(d.args[0].low, mask), d);
        Step(code, 5, BitAnd(d.args[0].low, mask), d);
      case SocketKind(_, _, _, _, _) =>
        SocketKindBlock(r, rest, code, d);
      case SocketPairKind(_, _, _, _, _, _) =>
        SocketPairBlock(r, rest, code, d);
    }
  }

  lemma {:induction false} SocketKindBlock(r: Rule, rest: seq<Instr>, code: seq<Instr>, d: Call)
    requires r.SocketKind? && d.nr == r.nr && code == Expand(r) + rest
    ensures Run(code[1..], d.nr, d) == Decide(r, d)
  {
    hide Run, BitAnd;
    var domain, kind := d.args[0].low, BitAnd(d.args[1].low, r.mask);
    Step(code, 1, d.nr, d);
    Step(code, 2, domain, d);
    if domain != r.domain {
      Step(code, 7, domain, d);
    } else {
      Step(code, 3, domain, d);
      Step(code, 4, d.args[1].low, d);
      Step(code, 5, kind, d);
      Step(code, if kind == r.kind then 6 else 7, kind, d);
    }
  }

  lemma {:induction false} SocketPairTail(r: Rule, rest: seq<Instr>, code: seq<Instr>, d: Call, kind: Word)
    requires r.SocketPairKind? && code == Expand(r) + rest && kind == BitAnd(d.args[1].low, r.mask)
    ensures Run(code[3..], d.args[0].low, d)
         == Some(if kind == r.kind1 || kind == r.kind2 then Allow else Errno(r.errno))
  {
    hide Run, BitAnd;
    Step(code, 3, d.args[0].low, d);
    Step(code, 4, d.args[1].low, d);
    Step(code, 5, kind, d);
    if kind == r.kind1 {
      Step(code, 8, kind, d);
    } else {
      Step(code, 6, kind, d);
      Step(code, if kind == r.kind2 then 8 else 7, kind, d);
    }
  }

  lemma {:induction false} SocketPairBlock(r: Rule, rest: seq<Instr>, code: seq<Instr>, d: Call)
    requires r.SocketPairKind? && d.nr == r.nr && code == Expand(r) + rest
    ensures Run(code[1..], d.nr, d) == Decide(r, d)
  {
    hide Run, BitAnd;
    var domain, kind := d.args[0].low, BitAnd(d.args[1].low, r.mask);
    Step(code, 1, d.nr, d);
    Step(code, 2, domain, d);
    if domain != r.domain {
      Step(code, 7, domain, d);
    } else {
      SocketPairTail(r, rest, code, d, kind);
    }
  }

  /** The main theorem, for every ordered rule list and every tail. */
  lemma {:induction false} AssembleCorrect(rules: seq<Rule>, tail: seq<Instr>, d: Call)
    ensures Run(Assemble(rules) + tail, d.nr, d)
         == if FirstMatch(rules, d).Some? then FirstMatch(rules, d) else Run(tail, d.nr, d)
  {
    if rules == [] {
      assert Assemble(rules) + tail == tail;
    } else {
      var rest := Assemble(rules[1..]) + tail;
      assert Assemble(rules) + tail == Expand(rules[0]) + rest;
      BlockCorrect(rules[0], rest, d);
      AssembleCorrect(rules[1..], tail, d);
    }
  }

  // ----- the programs ---------------------------------------------------------------------------

  /** Tails that may leave an argument in the accumulator, so they come last. */
  datatype Ending =
    | AllowRest
    | ExecOnlyDescriptor(nr: Word, fd: Word, emptyPath: Word, errno: nat)
    | OnlyDomain(nr: Word, domain: Word, errno: nat)
    | DenyOption(nr: Word, option: Word, errno: nat)

  function ExpandEnding(e: Ending): seq<Instr> {
    match e
    case AllowRest =>
      [Return(Allow)]
    case ExecOnlyDescriptor(nr, fd, emptyPath, errno) =>
      [JumpEq(nr, 0, 7), Load(Low(0)), JumpEq(fd, 0, 4), Load(Low(4)), JumpEq(emptyPath, 0, 2),
       Load(High(4)), JumpEq(0, 1, 0), Return(Errno(errno)), Return(Allow)]
    case OnlyDomain(nr, domain, errno) =>
      [JumpEq(nr, 0, 3), Load(Low(0)), JumpEq(domain, 1, 0), Return(Errno(errno)), Return(Allow)]
    case DenyOption(nr, option, errno) =>
      [JumpEq(nr, 0, 3), Load(Low(0)), JumpEq(option, 0, 1), Return(Errno(errno)), Return(Allow)]
  }

  function DecideEnding(e: Ending, d: Call): Verdict {
    match e
    case AllowRest => Allow
    case ExecOnlyDescriptor(nr, fd, emptyPath, errno) =>
      if d.nr == nr && !(d.args[0].low == fd && d.args[4] == Argument(emptyPath, 0)) then Errno(errno) else Allow
    case OnlyDomain(nr, domain, errno) =>
      if d.nr == nr && d.args[0].low != domain then Errno(errno) else Allow
    case DenyOption(nr, option, errno) =>
      if d.nr == nr && d.args[0].low == option then Errno(errno) else Allow
  }

  lemma {:induction false} EndingCorrect(e: Ending, d: Call)
    ensures Run(ExpandEnding(e), d.nr, d) == Some(DecideEnding(e, d))
  {
    hide Run, BitAnd;
    var code := ExpandEnding(e);
    assert code[0..] == code;
    Step(code, 0, d.nr, d);
    var a0 := d.args[0].low;
    match e
    case AllowRest =>
    case ExecOnlyDescriptor(_, _, _, _) =>
      ExecEnding(e, code, d);
    case OnlyDomain(nr, domain, _) =>
      if d.nr != nr {
        Step(code, 4, d.nr, d);
      } else {
        Step(code, 1, d.nr, d);
        Step(code, 2, a0, d);
        Step(code, if a0 == domain then 4 else 3, a0, d);
      }
    case DenyOption(nr, option, _) =>
      if d.nr != nr {
        Step(code, 4, d.nr, d);
      } else {
        Step(code, 1, d.nr, d);
        Step(code, 2, a0, d);
        Step(code, if a0 == option then 3 else 4, a0, d);
      }
  }

  lemma {:induction false} ExecFlags(e: Ending, code: seq<Instr>, d: Call)
    requires e.ExecOnlyDescriptor? && code == ExpandEnding(e)
    ensures Run(code[3..], d.args[0].low, d)
         == Some(if d.args[4] == Argument(e.emptyPath, 0) then Allow else Errno(e.errno))
  {
    hide Run, BitAnd;
    Step(code, 3, d.args[0].low, d);
    Step(code, 4, d.args[4].low, d);
    if d.args[4].low != e.emptyPath {
      Step(code, 7, d.args[4].low, d);
    } else {
      Step(code, 5, d.args[4].low, d);
      Step(code, 6, d.args[4].high, d);
      Step(code, if d.args[4].high == 0 then 8 else 7, d.args[4].high, d);
    }
  }

  lemma {:induction false} ExecEnding(e: Ending, code: seq<Instr>, d: Call)
    requires e.ExecOnlyDescriptor? && code == ExpandEnding(e)
    ensures Run(code[0..], d.nr, d) == Some(DecideEnding(e, d))
  {
    hide Run, BitAnd;
    Step(code, 0, d.nr, d);
    if d.nr != e.nr {
      Step(code, 8, d.nr, d);
    } else {
      Step(code, 1, d.nr, d);
      Step(code, 2, d.args[0].low, d);
      if d.args[0].low != e.fd {
        Step(code, 7, d.args[0].low, d);
      } else {
        ExecFlags(e, code, d);
      }
    }
  }

  /** The shared head: wrong architecture, and on x86-64 the x32 number space, are fatal. */
  function Prologue(arch: Word, x32Bit: Option<Word>): seq<Instr> {
    [Load(Arch), JumpEq(arch, 1, 0), Return(KillProcess), Load(Number)]
    + if x32Bit.Some? then [JumpSet(x32Bit.value, 0, 1), Return(KillProcess)] else []
  }

  function Program(arch: Word, x32Bit: Option<Word>, rules: seq<Rule>, ending: Ending): seq<Instr> {
    Prologue(arch, x32Bit) + (Assemble(rules) + ExpandEnding(ending))
  }

  function Policy(arch: Word, x32Bit: Option<Word>, rules: seq<Rule>, ending: Ending, d: Call): Verdict {
    if d.arch != arch then KillProcess
    else if x32Bit.Some? && BitAnd(d.nr, x32Bit.value) != 0 then KillProcess
    else if FirstMatch(rules, d).Some? then FirstMatch(rules, d).value
    else DecideEnding(ending, d)
  }

  /** Every program of this shape, started by the kernel at instruction 0, returns its policy. */
  lemma {:induction false} ProgramCorrect(arch: Word, x32Bit: Option<Word>, rules: seq<Rule>, ending: Ending, d: Call)
    ensures RunAt(Program(arch, x32Bit, rules, ending), 0, 0, d) == Some(Policy(arch, x32Bit, rules, ending, d))
  {
    hide Run, BitAnd, Assemble, ExpandEnding, FirstMatch, DecideEnding, RunAt;
    var code := Program(arch, x32Bit, rules, ending);
    var body := Assemble(rules) + ExpandEnding(ending);
    RunAtIsRun(code, 0, 0, d);
    Step(code, 0, 0, d);
    Step(code, 1, d.arch, d);
    if d.arch != arch {
      Step(code, 2, d.arch, d);
    } else {
      Step(code, 3, d.arch, d);
      assert Skip(code, 4) == code[4..];
      if x32Bit.Some? {
        Step(code, 4, d.nr, d);
        if BitAnd(d.nr, x32Bit.value) != 0 {
          Step(code, 5, d.nr, d);
        }
      }
      assert Skip(code, |Prologue(arch, x32Bit)|) == body;
      AssembleCorrect(rules, ExpandEnding(ending), d);
      EndingCorrect(ending, d);
    }
  }

  // ----- consequences for whole rule lists ---------------------------------------------------------

  ghost predicate DistinctCalls(rules: seq<Rule>) {
    forall i, j :: 0 <= i < j < |rules| ==> rules[i].nr != rules[j].nr
  }

  lemma {:induction false} NoRuleNoMatch(rules: seq<Rule>, d: Call)
    requires forall i :: 0 <= i < |rules| ==> rules[i].nr != d.nr
    ensures FirstMatch(rules, d) == None
  {
    if rules != [] {
      NoRuleNoMatch(rules[1..], d);
    }
  }

  /** With one rule per call number the order of the list does not matter: each call gets the verdict
      of its own rule. */
  lemma {:induction false} OwnRuleDecides(rules: seq<Rule>, i: nat, d: Call)
    requires DistinctCalls(rules) && i < |rules| && rules[i].nr == d.nr
    ensures FirstMatch(rules, d) == Decide(rules[i], d)
  {
    if i == 0 {
      if Decide(rules[0], d).None? {
        NoRuleNoMatch(rules[1..], d);
      }
    } else {
      assert rules[0].nr != d.nr;
      assert forall a, b :: 0 <= a < b < |rules| - 1 ==> rules[1..][a].nr != rules[1..][b].nr;
      OwnRuleDecides(rules[1..], i - 1, d);
    }
  }

  /** A denied call stays denied wherever its rule stands, as long as no rule could allow it. */
  lemma {:induction false} DeniedNeverAllowed(rules: seq<Rule>, r: Rule, d: Call)
    requires r in rules && r.Deny? && r.nr == d.nr
    requires forall s :: s in rules && s.nr == d.nr ==> s.Deny? || s.DenyFlag?
    ensures FirstMatch(rules, d).Some? && FirstMatch(rules, d).value.Errno?
  {
    if rules[0] != r && Decide(rules[0], d).None? {
      assert r in rules[1..];
      DeniedNeverAllowed(rules[1..], r, d);
    }
  }
}
