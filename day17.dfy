/** Day 17: Chronospatial Computer -- a three-register machine whose program is a
    list of 3-bit opcode/operand pairs, run until the instruction pointer leaves
    the program. The registers are non-negative integers; the worked example
    (A = 729, program 0,1,5,4,3,0) prints 4,6,3,5,6,3,5,2,1,0. */
module Day17 {
  import opened Wrappers
  import opened PyText

  // ---------------------------------------------------------------------------
  // parse_input
  // ---------------------------------------------------------------------------

  /** int(line.split(':')[1]); None where the source raises IndexError or ValueError. */
  function AfterColon(line: string): Option<int> {
    var p := SplitOn(line, ":");
    if |p| < 2 then None else ParseInt(p[1])
  }

  /** list(map(int, line.split(':')[1].split(','))); None where the source raises. */
  function ProgramField(line: string): Option<seq<int>> {
    var p := SplitOn(line, ":");
    if |p| < 2 then None else ParseAll(SplitOn(p[1], ","))
  }

  /** list(map(int, items)); None where some int() raises ValueError. */
  function ParseAll(items: seq<string>): (r: Option<seq<int>>)
    ensures r.Some? ==> |r.value| == |items|
  {
    if items == [] then Some([])
    else match (ParseInt(items[0]), ParseAll(items[1..]))
      case (Some(v), Some(vs)) => Some([v] + vs)
      case _ => None
  }

  /** parse_input (day17.py:6-14): the three registers from the first three lines and
      the program from the fifth; None where the source raises. */
  function ParseInput(raw: string): Option<(seq<int>, seq<int>)> {
    ParseLines(SplitOn(raw, "\n"))
  }

  function ParseLines(lines: seq<string>): Option<(seq<int>, seq<int>)> {
    if |lines| < 5 then None
    else match (AfterColon(lines[0]), AfterColon(lines[1]), AfterColon(lines[2]), ProgramField(lines[4]))
      case (Some(a), Some(b), Some(c), Some(program)) => Some(([a, b, c], program))
      case _ => None
  }

  /** The puzzle's text for registers a, b, c and a program. */
  function Format(a: int, b: int, c: int, program: seq<int>): string
    requires program != []
  {
    Join(FormatLines(a, b, c, program[0], program[1..]), "\n")
  }

  function FormatLines(a: int, b: int, c: int, p0: int, rest: seq<int>): seq<string> {
    [RegisterLine("Register A", a), RegisterLine("Register B", b), RegisterLine("Register C", c), "",
     ProgramLine(p0, rest)]
  }

  function RegisterLine(tag: string, n: int): string {
    tag + ":" + (" " + Show(n))
  }

  /** The program's numbers as printed after "Program:", the first with its space. */
  function Pieces(p0: int, rest: seq<int>): seq<string> {
    [" " + Show(p0)] + Shows(rest)
  }

  function ProgramLine(p0: int, rest: seq<int>): string {
    "Program" + ":" + Join(Pieces(p0, rest), ",")
  }

  /** parse_input reads back the text of any registers and non-empty program. */
  lemma ParseFormat(a: int, b: int, c: int, program: seq<int>)
    requires program != []
    ensures ParseInput(Format(a, b, c, program)) == Some(([a, b, c], program))
  {
    var p0, rest := program[0], program[1..];
    FormatSplits(a, b, c, p0, rest);
    ReadLines(a, b, c, p0, rest);
    assert [p0] + rest == program;
  }

  /** The text splits at its newlines into the five lines it was made of. */
  lemma FormatSplits(a: int, b: int, c: int, p0: int, rest: seq<int>)
    ensures SplitOn(Join(FormatLines(a, b, c, p0, rest), "\n"), "\n") == FormatLines(a, b, c, p0, rest)
  {
    LinesLack(a, b, c, p0, rest);
    SplitJoin(FormatLines(a, b, c, p0, rest), "\n");
  }

  lemma LinesLack(a: int, b: int, c: int, p0: int, rest: seq<int>)
    ensures forall k :: 0 <= k < |FormatLines(a, b, c, p0, rest)| ==> '\n' !in FormatLines(a, b, c, p0, rest)[k]
  {
    LineLacks("Register A", a, '\n');
    LineLacks("Register B", b, '\n');
    LineLacks("Register C", c, '\n');
    ProgramLineLacks(p0, rest);
  }

  /** Each line reads back as the value it was made from. */
  lemma ReadLines(a: int, b: int, c: int, p0: int, rest: seq<int>)
    ensures ParseLines(FormatLines(a, b, c, p0, rest)) == Some(([a, b, c], [p0] + rest))
  {
    ReadRegisterLine("Register A", a);
    ReadRegisterLine("Register B", b);
    ReadRegisterLine("Register C", c);
    ReadProgramLine(p0, rest);
  }

  lemma ProgramLineLacks(p0: int, rest: seq<int>)
    ensures '\n' !in ProgramLine(p0, rest)
  {
    ItemsLack(p0, rest);
    JoinLacks(Pieces(p0, rest), ",", '\n');
  }

  lemma ReadProgramLine(p0: int, rest: seq<int>)
    ensures ProgramField(ProgramLine(p0, rest)) == Some([p0] + rest)
  {
    var items := Pieces(p0, rest);
    var joined := Join(items, ",");
    ItemsLack(p0, rest);
    JoinLacks(items, ",", ':');
    WithoutLead("Program", ":");
    WithoutLead(joined, ":");
    var line := ProgramLine(p0, rest);
    assert line == "Program" + ":" + joined;
    SplitFirst("Program", ":", joined);
    SplitWhole(joined, ":");
    assert SplitOn(line, ":") == ["Program", joined];
    ItemsSplit(p0, rest, joined);
  }

  /** None of the program's pieces holds a ',', ':' or newline. */
  lemma ItemsLack(p0: int, rest: seq<int>)
    ensures forall k :: 0 <= k < |Pieces(p0, rest)| ==>
      ',' !in Pieces(p0, rest)[k] && ':' !in Pieces(p0, rest)[k] && '\n' !in Pieces(p0, rest)[k]
  {
    var items := Pieces(p0, rest);
    assert |items| == 1 + |rest|;
    forall k | 0 <= k < |items|
      ensures ',' !in items[k] && ':' !in items[k] && '\n' !in items[k]
    {
      if k == 0 {
        ShowLacks(p0, ','); ShowLacks(p0, ':'); ShowLacks(p0, '\n');
      } else {
        ShowLacks(rest[k - 1], ','); ShowLacks(rest[k - 1], ':'); ShowLacks(rest[k - 1], '\n');
      }
    }
  }

  /** The program's pieces split back and read back as the program. */
  lemma ItemsSplit(p0: int, rest: seq<int>, joined: string)
    requires joined == Join(Pieces(p0, rest), ",")
    ensures ParseAll(SplitOn(joined, ",")) == Some([p0] + rest)
  {
    ItemsLack(p0, rest);
    SplitJoin(Pieces(p0, rest), ",");
    ParseItems(p0, rest);
  }

  lemma ParseItems(p0: int, rest: seq<int>)
    ensures ParseAll(Pieces(p0, rest)) == Some([p0] + rest)
  {
    ParseSpaced(p0);
    ParseAllShows(rest);
    ParseAllCons(Pieces(p0, rest), p0, rest);
  }

  lemma {:induction false} ParseAllShows(vals: seq<int>)
    ensures ParseAll(Shows(vals)) == Some(vals)
    decreases |vals|
  {
    if vals != [] {
      var items := Shows(vals);
      ShowsTail(vals, items);
      ParseShow(vals[0]);
      ParseAllShows(vals[1..]);
      ParseAllCons(items, vals[0], vals[1..]);
      FirstRest(vals);
    }
  }

  lemma ShowsTail(vals: seq<int>, items: seq<string>)
    requires vals != [] && items == Shows(vals)
    ensures items != [] && items[0] == Show(vals[0]) && items[1..] == Shows(vals[1..])
  {
  }

  lemma ParseAllCons(items: seq<string>, v: int, vs: seq<int>)
    requires items != [] && ParseInt(items[0]) == Some(v) && ParseAll(items[1..]) == Some(vs)
    ensures ParseAll(items) == Some([v] + vs)
  {
  }

  /** A register line "Register X: n" gives n after its colon. */
  lemma ReadRegisterLine(tag: string, n: int)
    requires ':' !in tag
    ensures AfterColon(RegisterLine(tag, n)) == Some(n)
  {
    var rest := " " + Show(n);
    ShowLacks(n, ':');
    WithoutLead(tag, ":");
    WithoutLead(rest, ":");
    SplitFirst(tag, ":", rest);
    SplitWhole(rest, ":");
    ParseSpaced(n);
  }

  lemma LineLacks(tag: string, n: int, c: char)
    requires c !in tag && c != ':' && c != ' ' && c != '-' && !('0' <= c <= '9')
    ensures c !in RegisterLine(tag, n)
  {
    ShowLacks(n, c);
  }

  /** A character in no piece and not in the separator is not in the join. */
  lemma {:induction false} JoinLacks(parts: seq<string>, sep: string, c: char)
    requires c !in sep && forall k :: 0 <= k < |parts| ==> c !in parts[k]
    ensures c !in Join(parts, sep)
    decreases |parts|
  {
    if |parts| > 1 {
      JoinLacks(parts[1..], sep, c);
    }
  }

  // ---------------------------------------------------------------------------
  // Integer operations the opcodes use
  // ---------------------------------------------------------------------------

  /** 2 ** n. */
  function Pow2(n: nat): (r: nat)
    ensures r >= 1
  {
    if n == 0 then 1 else 2 * Pow2(n - 1)
  }

  /** x ^ y, Python's bitwise exclusive or, on non-negative integers. */
  function Xor(x: nat, y: nat): nat
    decreases x + y
  {
    if x == 0 && y == 0 then 0 else 2 * Xor(x / 2, y / 2) + (if x % 2 == y % 2 then 0 else 1)
  }

  /** Exclusive or with the same value twice gives the value back, so bxl with the
      same literal twice restores B. */
  lemma {:induction false} XorTwice(x: nat, y: nat)
    ensures Xor(Xor(x, y), y) == x
    decreases x + y
  {
    if x != 0 || y != 0 {
      var z := Xor(x, y);
      XorTwice(x / 2, y / 2);
      assert z / 2 == Xor(x / 2, y / 2) && z % 2 == (if x % 2 == y % 2 then 0 else 1);
    }
  }

  /** Exclusive or with 0 changes nothing. */
  lemma {:induction false} XorZero(x: nat)
    ensures Xor(x, 0) == x
    decreases x
  {
    if x != 0 { XorZero(x / 2); }
  }

  /** int(a / 2 ** k) for a >= 0: the quotient truncated, here the floor. */
  function Shift(a: nat, k: nat): nat {
    var d := Pow2(k);
    QuotientNat(a, d);
    a / d
  }

  lemma QuotientNat(a: nat, d: int)
    requires d >= 1
    ensures a / d >= 0
  {
  }

  /** The truncated quotient is the largest q with q * 2^k <= a. */
  lemma ShiftBounds(a: nat, k: nat)
    ensures Shift(a, k) * Pow2(k) <= a < (Shift(a, k) + 1) * Pow2(k)
  {
  }

  // ---------------------------------------------------------------------------
  // The machine and its instructions, as values
  // ---------------------------------------------------------------------------

  /** Registers A, B, C (regs[0..2]), the instruction pointer (the global ptr) and
      the output so far (the global ret). */
  datatype Machine = Machine(a: nat, b: nat, c: nat, ptr: nat, out: seq<nat>)

  /** cmb (day17.py:17-21): operands 4, 5, 6 read registers A, B, C; every other
      operand is its own value. */
  function Combo(m: Machine, opr: nat): (v: nat)
    ensures opr == 4 ==> v == m.a
    ensures opr == 5 ==> v == m.b
    ensures opr == 6 ==> v == m.c
    ensures opr !in {4, 5, 6} ==> v == opr
  {
    if opr == 4 then m.a else if opr == 5 then m.b else if opr == 6 then m.c else opr
  }

  /** The instruction functions of OPCODES (day17.py:24-55) on a machine: each
      updates one register, the pointer (jnz) or the output (out). */
  function Apply(m: Machine, opcode: nat, opr: nat): Machine
    requires opcode <= 7
  {
    match opcode
    case 0 => m.(a := Shift(m.a, Combo(m, opr)))
    case 1 => m.(b := Xor(m.b, opr))
    case 2 => m.(b := Combo(m, opr) % 8)
    case 3 => m.(ptr := if m.a != 0 then opr else m.ptr + 2)
    case 4 => m.(b := Xor(m.b, m.c))
    case 5 => m.(out := m.out + [Combo(m, opr) % 8])
    case 6 => m.(b := Shift(m.a, Combo(m, opr)))
    case _ => m.(c := Shift(m.a, Combo(m, opr)))
  }

  /** Every value the machine has printed is one octal digit. */
  ghost predicate Octal(out: seq<nat>) {
    forall k :: 0 <= k < |out| ==> out[k] < 8
  }

  /**
   * One pass of part1's loop (day17.py:67-68): the instruction at ptr with the
   * operand after it, then ptr += 2 unless the opcode was jnz. None where the
   * source raises: KeyError for an opcode outside 0..7, IndexError for a
   * missing operand.
   */
  function Step(program: seq<nat>, m: Machine): (r: Option<Machine>)
    requires m.ptr < |program|
    ensures r.None? <==> program[m.ptr] > 7 || m.ptr + 1 >= |program|
    ensures r.Some? ==>
      r.value.ptr == (if program[m.ptr] == 3 && m.a != 0 then program[m.ptr + 1] else m.ptr + 2)
    ensures r.Some? ==> r.value.out == m.out || exists v :: v < 8 && r.value.out == m.out + [v]
    ensures r.Some? && program[m.ptr] in {0, 6, 7} ==>
      var q := Shift(m.a, Combo(m, program[m.ptr + 1]));
      r.value == (if program[m.ptr] == 0 then m.(a := q) else if program[m.ptr] == 6 then m.(b := q) else m.(c := q)).(ptr := m.ptr + 2)
  {
    var opcode := program[m.ptr];
    if opcode > 7 || m.ptr + 1 >= |program| then None
    else
      var n := Apply(m, opcode, program[m.ptr + 1]);
      assert opcode == 5 ==> n.out == m.out + [Combo(m, program[m.ptr + 1]) % 8];
      Some(if opcode != 3 then n.(ptr := n.ptr + 2) else n)
  }

  /** How a run ends: the pointer left the program, an instruction raised, or the
      fuel ran out first; each with the machine at that point. */
  datatype Outcome = Halted(m: Machine) | Crashed(m: Machine) | OutOfFuel(m: Machine)

  /** part1's while loop (day17.py:66-68) for at most fuel passes: the program
      need not halt. */
  function Run(program: seq<nat>, m: Machine, fuel: nat): Outcome
    decreases fuel
  {
    if m.ptr >= |program| then Halted(m)
    else if fuel == 0 then OutOfFuel(m)
    else match Step(program, m)
      case None => Crashed(m)
      case Some(n) => Run(program, n, fuel - 1)
  }

  /** A halted run ends with the pointer past the program. */
  lemma {:induction false} HaltedPastEnd(program: seq<nat>, m: Machine, fuel: nat)
    ensures Run(program, m, fuel).Halted? ==> Run(program, m, fuel).m.ptr >= |program|
    decreases fuel
  {
    if m.ptr < |program| && fuel > 0 && Step(program, m).Some? {
      HaltedPastEnd(program, Step(program, m).value, fuel - 1);
    }
  }

  /** The loop stops at once, printing nothing more, exactly when the pointer is
      past the program. */
  lemma HaltsAtEnd(program: seq<nat>, m: Machine, fuel: nat)
    ensures Run(program, m, fuel) == Halted(m) <==> m.ptr >= |program|
  {
    HaltedPastEnd(program, m, fuel);
  }

  /** A run only appends octal digits to the output. */
  lemma {:induction false} RunPrints(program: seq<nat>, m: Machine, fuel: nat)
    requires Octal(m.out)
    ensures var r := Run(program, m, fuel); Octal(r.m.out) && m.out <= r.m.out
    decreases fuel
  {
    if m.ptr < |program| && fuel > 0 {
      var n := Step(program, m);
      if n.Some? {
        assert Octal(n.value.out) && m.out <= n.value.out;
        RunPrints(program, n.value, fuel - 1);
      }
    }
  }

  /** More fuel does not change a run that already ended. */
  lemma {:induction false} RunFuel(program: seq<nat>, m: Machine, fuel: nat, more: nat)
    requires fuel <= more && !Run(program, m, fuel).OutOfFuel?
    ensures Run(program, m, more) == Run(program, m, fuel)
    decreases fuel
  {
    if m.ptr < |program| && Step(program, m).Some? {
      RunFuel(program, Step(program, m).value, fuel - 1, more - 1);
    }
  }

  // ---------------------------------------------------------------------------
  // The machine as the source keeps it: a register list updated in place and
  // two globals
  // ---------------------------------------------------------------------------

  class Computer {
    /** The caller's register list, which part1 changes in place. */
    const regs: array<nat>
    /** The global ptr. */
    var ptr: nat
    /** The global ret. */
    var ret: seq<nat>

    /** global ptr; ptr = 0 and global ret; ret = [] (day17.py:63-64). */
    constructor (regs: array<nat>)
      requires regs.Length == 3
      ensures this.regs == regs && ptr == 0 && ret == []
    {
      this.regs := regs;
      ptr := 0;
      ret := [];
    }

    function State(): Machine
      reads this, regs
      requires regs.Length == 3
    {
      Machine(regs[0], regs[1], regs[2], ptr, ret)
    }

    /** cmb (day17.py:17-21). */
    function Cmb(opr: nat): (v: nat)
      reads this, regs
      requires regs.Length == 3
      ensures v == Combo(State(), opr)
    {
      if opr == 4 then regs[0] else if opr == 5 then regs[1] else if opr == 6 then regs[2] else opr
    }

    /** adv (day17.py:24-26). */
    method Adv(opr: nat)
      requires regs.Length == 3
      modifies regs
      ensures State() == Apply(old(State()), 0, opr)
    {
      regs[0] := regs[0] / Pow2(Cmb(opr));
    }

    /** bdv (day17.py:28-30). */
    method Bdv(opr: nat)
      requires regs.Length == 3
      modifies regs
      ensures State() == Apply(old(State()), 6, opr)
    {
      regs[1] := regs[0] / Pow2(Cmb(opr));
    }

    /** cdv (day17.py:32-34). */
    method Cdv(opr: nat)
      requires regs.Length == 3
      modifies regs
      ensures State() == Apply(old(State()), 7, opr)
    {
      regs[2] := regs[0] / Pow2(Cmb(opr));
    }

    /** bxl (day17.py:36-37). */
    method Bxl(opr: nat)
      requires regs.Length == 3
      modifies regs
      ensures State() == Apply(old(State()), 1, opr)
    {
      regs[1] := Xor(regs[1], opr);
    }

    /** bxc (day17.py:39-40): the operand is read and ignored. */
    method Bxc(opr: nat)
      requires regs.Length == 3
      modifies regs
      ensures State() == Apply(old(State()), 4, opr)
    {
      regs[1] := Xor(regs[1], regs[2]);
    }

    /** bst (day17.py:42-44). */
    method Bst(opr: nat)
      requires regs.Length == 3
      modifies regs
      ensures State() == Apply(old(State()), 2, opr)
    {
      regs[1] := Cmb(opr) % 8;
    }

    /** jnz (day17.py:46-48). */
    method Jnz(opr: nat)
      requires regs.Length == 3
      modifies this
      ensures State() == Apply(old(State()), 3, opr)
    {
      ptr := if regs[0] != 0 then opr else ptr + 2;
    }

    /** out (day17.py:50-53). */
    method Out(opr: nat)
      requires regs.Length == 3
      modifies this
      ensures State() == Apply(old(State()), 5, opr)
    {
      ret := ret + [Cmb(opr) % 8];
    }

    /** OPCODES[opcode](registers, operand) (day17.py:55, 67). */
    method Execute(opcode: nat, opr: nat)
      requires regs.Length == 3 && opcode <= 7
      modifies this, regs
      ensures State() == Apply(old(State()), opcode, opr)
    {
      match opcode
      case 0 => Adv(opr);
      case 1 => Bxl(opr);
      case 2 => Bst(opr);
      case 3 => Jnz(opr);
      case 4 => Bxc(opr);
      case 5 => Out(opr);
      case 6 => Bdv(opr);
      case _ => Cdv(opr);
    }

    /** One pass of part1's loop (day17.py:67-68); ok is false, and nothing has
        changed, where the source raises. */
    method Cycle(program: seq<nat>) returns (ok: bool)
      requires regs.Length == 3 && ptr < |program|
      modifies this, regs
      ensures ok <==> Step(program, old(State())).Some?
      ensures State() == if ok then Step(program, old(State())).value else old(State())
    {
      var opcode := program[ptr];
      if opcode > 7 || ptr + 1 >= |program| {
        return false;
      }
      Execute(opcode, program[ptr + 1]);
      if opcode != 3 { ptr := ptr + 2; }
      ok := true;
    }
  }

  /** The machine part1 starts from: the given registers, ptr 0, nothing printed. */
  function Boot(regs: seq<nat>): Machine
    requires |regs| == 3
  {
    Machine(regs[0], regs[1], regs[2], 0, [])
  }

  /** ','.join(map(str, ret)) (day17.py:70). */
  function Render(out: seq<nat>): string {
    Join(seq(|out|, k requires 0 <= k < |out| => Show(out[k])), ",")
  }

  /** A pass that does not raise leads the run on from the next machine. */
  lemma RunOn(program: seq<nat>, m: Machine, fuel: nat)
    requires m.ptr < |program| && fuel > 0
    ensures Run(program, m, fuel) == match Step(program, m)
      case None => Crashed(m)
      case Some(n) => Run(program, n, fuel - 1)
  {
  }

  /**
   * part1 (day17.py:58-70) for at most fuel passes of its loop: runs the program
   * on the caller's registers, which end holding the final A, B and C, and
   * renders what was printed when the program halts.
   */
  method Part1(registers: array<nat>, program: seq<nat>, fuel: nat) returns (r: Outcome, text: string)
    requires registers.Length == 3
    modifies registers
    ensures r == Run(program, Boot(old(registers[..])), fuel)
    ensures registers[..] == [r.m.a, r.m.b, r.m.c]
    ensures r.Halted? ==> text == Render(r.m.out)
  {
    text := [];
    var comp := new Computer(registers);
    ghost var target := Run(program, comp.State(), fuel);
    var left := fuel;
    while comp.ptr < |program| && left > 0
      invariant comp.regs == registers && registers.Length == 3
      invariant Run(program, comp.State(), left) == target
      decreases left
    {
      ghost var before := comp.State();
      RunOn(program, before, left);
      var ok := comp.Cycle(program);
      if !ok {
        r := Crashed(comp.State());
        return;
      }
      left := left - 1;
    }
    if comp.ptr >= |program| {
      r := Halted(comp.State());
      text := Render(comp.ret);
    } else {
      r := OutOfFuel(comp.State());
    }
  }

  /** str of each value. */
  function Shows(vals: seq<int>): (r: seq<string>)
    ensures |r| == |vals| && forall k :: 0 <= k < |vals| ==> r[k] == Show(vals[k])
  {
    seq(|vals|, k requires 0 <= k < |vals| => Show(vals[k]))
  }

  /** The rendered output splits at its commas into the printed values' digits, and
      int() reads each value back. */
  lemma RenderSplits(out: seq<nat>)
    requires out != []
    ensures SplitOn(Render(out), ",") == Shows(out)
    ensures forall k :: 0 <= k < |out| ==> ParseInt(SplitOn(Render(out), ",")[k]) == Some(out[k] as int)
  {
    var parts := Shows(out);
    assert Render(out) == Join(parts, ",");
    forall k | 0 <= k < |parts| ensures ',' !in parts[k] {
      ShowLacks(out[k], ',');
    }
    SplitJoin(parts, ",");
    forall k | 0 <= k < |out| ensures ParseInt(parts[k]) == Some(out[k] as int) {
      ParseShow(out[k]);
    }
  }

  // ---------------------------------------------------------------------------
  // The worked example
  // ---------------------------------------------------------------------------

  /** The example program 0,1,5,4,3,0: adv 1; out A; jnz 0. */
  function Example(): seq<nat> { [0, 1, 5, 4, 3, 0] }

  /** One round of the example: A is halved and printed modulo 8, then the jump
      goes back to the start unless A is 0. */
  lemma ExampleRound(m: Machine, fuel: nat)
    requires m.ptr == 0 && fuel >= 3
    ensures var h := m.a / 2;
      Run(Example(), m, fuel) == Run(Example(), m.(a := h, out := m.out + [h % 8], ptr := if h != 0 then 0 else 6), fuel - 3)
  {
    var p := Example();
    var m1 := m.(a := m.a / 2, ptr := 2);
    assert Step(p, m) == Some(m1);
    var m2 := m1.(out := m1.out + [m1.a % 8], ptr := 4);
    assert Step(p, m1) == Some(m2);
    var m3 := m2.(ptr := if m2.a != 0 then 0 else 6);
    assert Step(p, m2) == Some(m3);
    RunOn(p, m, fuel);
    RunOn(p, m1, fuel - 1);
    RunOn(p, m2, fuel - 2);
  }

  /** What the example prints from A = a: A halved, modulo 8, round after round
      until A is 0. */
  function Halvings(a: nat): (r: seq<nat>)
    ensures r != []
    decreases a
  {
    var h := a / 2;
    [h % 8] + (if h == 0 then [] else Halvings(h))
  }

  /** From the start of the example with A = a, the machine halts after one round
      per printed value, having printed Halvings(a), with A = 0. */
  lemma {:induction false} ExampleRuns(m: Machine, fuel: nat)
    requires m.ptr == 0 && fuel >= 3 * |Halvings(m.a)|
    ensures Run(Example(), m, fuel) == Halted(m.(a := 0, ptr := 6, out := m.out + Halvings(m.a)))
    decreases m.a
  {
    var h := m.a / 2;
    HalvingsUnfold(m.a);
    if h == 0 {
      ExampleLast(m, fuel);
    } else {
      var n := m.(a := h, out := m.out + [h % 8]);
      ExampleRound(m, fuel);
      ExampleRuns(n, fuel - 3);
      assert n.out + Halvings(h) == m.out + Halvings(m.a);
    }
  }

  /** The last round: A halves to 0, 0 is printed and the jump falls through. */
  lemma ExampleLast(m: Machine, fuel: nat)
    requires m.ptr == 0 && fuel >= 3 && m.a / 2 == 0
    ensures Run(Example(), m, fuel) == Halted(m.(a := 0, ptr := 6, out := m.out + [0]))
  {
    ExampleRound(m, fuel);
    Stopped(Example(), m.(a := 0, ptr := 6, out := m.out + [0]), fuel - 3);
  }

  lemma HalvingsUnfold(a: nat)
    ensures Halvings(a) == [a / 2 % 8] + (if a / 2 == 0 then [] else Halvings(a / 2))
  {
  }

  lemma Stopped(program: seq<nat>, m: Machine, fuel: nat)
    requires m.ptr >= |program|
    ensures Run(program, m, fuel) == Halted(m)
  {
  }

  lemma HalvingsCons(a: nat, h: nat, rest: seq<nat>)
    requires h == a / 2 && h != 0 && Halvings(h) == rest
    ensures Halvings(a) == [h % 8] + rest
  {
  }

  lemma HalvingsOf729()
    ensures Halvings(729) == [4, 6, 3, 5, 6, 3, 5, 2, 1, 0]
  {
    assert Halvings(1) == [0];
    HalvingsCons(2, 1, [0]);
    HalvingsCons(5, 2, [1, 0]);
    HalvingsCons(11, 5, [2, 1, 0]);
    HalvingsCons(22, 11, [5, 2, 1, 0]);
    HalvingsCons(45, 22, [3, 5, 2, 1, 0]);
    HalvingsCons(91, 45, [6, 3, 5, 2, 1, 0]);
    HalvingsCons(182, 91, [5, 6, 3, 5, 2, 1, 0]);
    HalvingsCons(364, 182, [3, 5, 6, 3, 5, 2, 1, 0]);
    HalvingsCons(729, 364, [6, 3, 5, 6, 3, 5, 2, 1, 0]);
  }

  /** With A = 729 the example halts after ten rounds, having printed
      4,6,3,5,6,3,5,2,1,0 (day17.py:80). */
  lemma ExampleOutput(m: Machine, fuel: nat)
    requires m == Machine(729, 0, 0, 0, []) && fuel >= 30
    ensures Run(Example(), m, fuel) == Halted(Machine(0, 0, 0, 6, [4, 6, 3, 5, 6, 3, 5, 2, 1, 0]))
  {
    HalvingsOf729();
    ExampleRuns(m, fuel);
  }
}
