/**
 * The safe dial: a position on a dial of 10^digits positions, turned left or
 * right by instructions such as "L68" or "R48", and the two ways of reading
 * the password: how often the dial rests on 0 after an instruction, and how
 * often it points at 0 at any moment of a turn.
 */
module Safes {
  import opened Wrappers
  import opened Strings

  // ---------------------------------------------------------------------------
  // Integer arithmetic

  /** 10^n, the exact value std::pow(10, n) stands for. */
  function Pow10(n: nat): (r: nat)
    ensures r >= 1
    ensures n >= 1 ==> r >= 10
  {
    if n == 0 then 1 else 10 * Pow10(n - 1)
  }

  /** safe_modulus: the number of positions of a dial with `digits` digits. */
  function SafeModulus(digits: nat): (m: nat)
    ensures m >= 1
    ensures digits >= 1 ==> m >= 10
  {
    Pow10(digits)
  }

  /** A non-zero multiple of m is at least m away from 0. */
  lemma MulBounds(d: int, m: int)
    requires m > 0
    ensures d >= 1 ==> d * m >= m
    ensures d <= -1 ==> d * m <= -m
  {
    if d >= 1 {
      assert d * m == (d - 1) * m + m;
    } else if d <= -1 {
      assert d * m == (d + 1) * m - m;
    }
  }

  /** A product of m that lies strictly between -m and m is 0. */
  lemma MulSmall(d: int, m: int)
    requires m > 0 && -m < d * m < m
    ensures d == 0
  {
    MulBounds(d, m);
  }

  /** Quotient and remainder are determined by x == q * m + r with 0 <= r < m. */
  lemma DivModUnique(x: int, m: int, q: int, r: int)
    requires m > 0 && 0 <= r < m && x == q * m + r
    ensures x / m == q && x % m == r
  {
    var d := q - x / m;
    assert x == (x / m) * m + x % m;
    assert d * m == q * m - (x / m) * m;
    assert d * m == x % m - r;
    MulSmall(d, m);
  }

  /** Going from x - 1 to x the quotient by m grows exactly when x is a multiple of m. */
  lemma DivStep(x: int, m: int)
    requires m > 0
    ensures x / m - (x - 1) / m == if x % m == 0 then 1 else 0
  {
    var q, r := x / m, x % m;
    assert x == q * m + r;
    if r == 0 {
      DivModUnique(x - 1, m, q - 1, m - 1);
    } else {
      DivModUnique(x - 1, m, q, r - 1);
    }
  }

  /** x is a multiple of m exactly when -x is. */
  lemma NegDivisible(x: int, m: int)
    requires m > 0
    ensures x % m == 0 <==> (-x) % m == 0
  {
    if x % m == 0 {
      assert x == (x / m) * m;
      DivModUnique(-x, m, -(x / m), 0);
    }
    if (-x) % m == 0 {
      assert -x == ((-x) / m) * m;
      DivModUnique(x, m, -((-x) / m), 0);
    }
  }

  /**
   * C++ `%` on int: the remainder takes the sign of the dividend (the quotient
   * is truncated toward zero), unlike Dafny's Euclidean `%`.
   */
  function CRem(a: int, m: int): (r: int)
    requires m > 0
    ensures a >= 0 ==> 0 <= r < m
    ensures a < 0 ==> -m < r <= 0
    ensures (a - r) % m == 0
  {
    if a >= 0 then
      DivModUnique(a - a % m, m, a / m, 0);
      a % m
    else
      var q := (-a) / m;
      assert -a == q * m + (-a) % m;
      DivModUnique(a + (-a) % m, m, -q, 0);
      -((-a) % m)
  }

  /** The dial position a raw sum lands on: the C++ remainder, moved up by m when negative. */
  function Wrap(p: int, m: int): (r: int)
    requires m > 0
    ensures 0 <= r < m
    ensures (r - p) % m == 0
  {
    var q := CRem(p, m);
    if q < 0 then
      assert (p - q) == ((p - q) / m) * m;
      DivModUnique(q + m - p, m, -((p - q) / m) + 1, 0);
      q + m
    else
      NegDivisible(p - q, m);
      q
  }

  /** The truncating remainder corrected for sign is the mathematical remainder. */
  lemma WrapIsMod(p: int, m: int)
    requires m > 0
    ensures Wrap(p, m) == p % m
  {
    var r := Wrap(p, m);
    NegDivisible(r - p, m);
    assert p - r == ((p - r) / m) * m;
    DivModUnique(p, m, (p - r) / m, r);
  }

  // ---------------------------------------------------------------------------
  // Counting the moments the dial points at 0

  /** How many of the positions p + 1, …, p + a (turning right) are multiples of m. */
  function RightHits(p: int, a: nat, m: int): nat
    requires m > 0
  {
    if a == 0 then 0 else RightHits(p, a - 1, m) + (if (p + a) % m == 0 then 1 else 0)
  }

  /** How many of the positions p - 1, …, p - a (turning left) are multiples of m. */
  function LeftHits(p: int, a: nat, m: int): nat
    requires m > 0
  {
    if a == 0 then 0 else LeftHits(p, a - 1, m) + (if (p - a) % m == 0 then 1 else 0)
  }

  /** Turning right by a from p passes 0 once per multiple of m in (p, p + a]. */
  lemma {:induction false} RightHitsClosed(p: int, a: nat, m: int)
    requires m > 0
    ensures RightHits(p, a, m) == (p + a) / m - p / m
  {
    if a > 0 {
      RightHitsClosed(p, a - 1, m);
      DivStep(p + a, m);
    }
  }

  /** Turning left from p meets 0 as often as turning right from -p. */
  lemma {:induction false} LeftHitsMirror(p: int, a: nat, m: int)
    requires m > 0
    ensures LeftHits(p, a, m) == RightHits(-p, a, m)
  {
    if a > 0 {
      LeftHitsMirror(p, a - 1, m);
      NegDivisible(p - a, m);
      assert -(p - a) == -p + a;
    }
  }

  /**
   * The number of moments a turn by `amount` from p points at 0: a positive
   * amount turns right, any other amount turns left by its magnitude.
   */
  function ZeroHits(p: int, amount: int, m: int): nat
    requires m > 0
  {
    if amount > 0 then RightHits(p, amount, m) else LeftHits(p, -amount, m)
  }

  /**
   * The shortcut turn_count_zeros takes: the whole turns of |amount| plus one
   * when the remainder carries the dial past (or onto) 0.
   */
  function ZeroCrossings(p: int, amount: int, m: int): (count: int)
    requires m > 0
  {
    var a := if amount < 0 then -amount else amount;
    var n := a / m;
    var remainder := a % m;
    if amount > 0 then n + (if p + remainder >= m then 1 else 0)
    else n + (if p - remainder <= 0 then 1 else 0) - (if p == 0 then 1 else 0)
  }

  /** The shortcut counts exactly the moments the turning dial points at 0, for a position on the dial. */
  lemma ZeroCrossingsCorrect(p: int, amount: int, m: int)
    requires m > 0 && 0 <= p < m
    ensures ZeroCrossings(p, amount, m) == ZeroHits(p, amount, m)
  {
    if amount > 0 {
      RightCrossingsCorrect(p, amount, m);
    } else {
      LeftCrossingsCorrect(p, -amount, m);
    }
  }

  lemma RightCrossingsCorrect(p: int, a: int, m: int)
    requires m > 0 && 0 <= p < m && a > 0
    ensures ZeroCrossings(p, a, m) == RightHits(p, a, m)
  {
    DivModUnique(p, m, 0, p);
    var n, r := a / m, a % m;
    RightHitsClosed(p, a, m);
    assert a == n * m + r;
    if p + r >= m {
      DivModUnique(p + a, m, n + 1, p + r - m);
    } else {
      DivModUnique(p + a, m, n, p + r);
    }
  }

  lemma LeftCrossingsCorrect(p: int, a: int, m: int)
    requires m > 0 && 0 <= p < m && a >= 0
    ensures ZeroCrossings(p, -a, m) == LeftHits(p, a, m)
  {
    var n, r := a / m, a % m;
    assert ZeroCrossings(p, -a, m) == n + (if p - r <= 0 then 1 else 0) - (if p == 0 then 1 else 0);
    LeftHitsMirror(p, a, m);
    RightHitsClosed(-p, a, m);
    assert LeftHits(p, a, m) == (a - p) / m - (-p) / m;
    if p == 0 {
      assert a - p == a;
      DivModUnique(0, m, 0, 0);
    } else {
      LeftWithinTurn(p, a, m);
    }
  }

  lemma LeftWithinTurn(p: int, a: int, m: int)
    requires m > 0 && 0 < p < m && a >= 0
    ensures (a - p) / m - (-p) / m == a / m + (if p - a % m <= 0 then 1 else 0)
  {
    var n, r := a / m, a % m;
    assert a == n * m + r;
    DivModUnique(-p, m, -1, m - p);
    if r >= p {
      DivModUnique(a - p, m, n, r - p);
    } else {
      DivModUnique(a - p, m, n - 1, m + r - p);
    }
  }

  // ---------------------------------------------------------------------------
  // Instructions

  datatype Direction = Left | Right

  datatype Instruction = Instruction(direction: Direction, steps: int)

  /**
   * Instruction::from_string: 'L' first means Left, any other first character
   * Right; the steps are std::stoi of the rest. An empty string (substr(1)
   * throws std::out_of_range) or a rest std::stoi rejects gives None.
   */
  function InstructionFromString(s: string): (r: Option<Instruction>)
    ensures r.Some? <==> |s| > 0 && Stoi(s[1..]).Some?
    ensures r.Some? ==> (r.value.direction == Left <==> s[0] == 'L') && r.value.steps == Stoi(s[1..]).value
  {
    if |s| == 0 then None
    else match Stoi(s[1..])
      case None => None
      case Some(steps) => Some(Instruction(if s[0] == 'L' then Left else Right, steps))
  }

  /** Writing an instruction as its letter and its number and reading it back gives it again. */
  lemma InstructionRoundTrip(ins: Instruction)
    requires IntMin <= ins.steps <= IntMax
    ensures InstructionFromString([if ins.direction == Left then 'L' else 'R'] + IntToString(ins.steps)) == Some(ins)
  {
    var s := [if ins.direction == Left then 'L' else 'R'] + IntToString(ins.steps);
    assert s[1..] == IntToString(ins.steps) + "";
    StoiOfIntToString(ins.steps, "");
  }

  /** The position after apply_instruction: Left subtracts the steps, Right adds them. */
  function Step(p: int, ins: Instruction, m: int): (q: int)
    requires m > 0
    ensures 0 <= q < m
  {
    match ins.direction
    case Left => Wrap(p - ins.steps, m)
    case Right => Wrap(p + ins.steps, m)
  }

  /**
   * The turn apply_instruction_count_zeros makes: turn_count_zeros(+steps) for
   * Left and turn_count_zeros(-steps) for Right, so a Left instruction turns
   * the dial towards higher numbers here, the opposite of apply_instruction.
   */
  function CountingAmount(ins: Instruction): int
  {
    if ins.direction == Left then ins.steps else -ins.steps
  }

  /** The turn apply_instruction makes, as a signed amount: Left subtracts the steps, Right adds them. */
  function WalkAmount(ins: Instruction): int
  {
    if ins.direction == Left then -ins.steps else ins.steps
  }

  /** A turn that ends on 0 points at 0 at least once: at its last step. */
  lemma EndOnZeroIsHit(p: int, amount: int, m: int)
    requires m > 0 && amount != 0 && (p + amount) % m == 0
    ensures ZeroHits(p, amount, m) >= 1
  {
    if amount < 0 {
      assert p - (-amount) == p + amount;
    }
  }

  /**
   * Counting along the turn apply_instruction makes: the dial ends where
   * apply_instruction leaves it, the count is the number of moments that turn
   * points at 0, and coming to rest on 0 after a move is counted.
   */
  lemma WalkAmountCountsTheWalk(p: int, ins: Instruction, m: int)
    requires m > 0 && 0 <= p < m
    ensures Wrap(p + WalkAmount(ins), m) == Step(p, ins, m)
    ensures ZeroCrossings(p, WalkAmount(ins), m) == ZeroHits(p, WalkAmount(ins), m)
    ensures ins.steps != 0 && Step(p, ins, m) == 0 ==> ZeroCrossings(p, WalkAmount(ins), m) >= 1
  {
    ZeroCrossingsCorrect(p, WalkAmount(ins), m);
    WrapIsMod(p + WalkAmount(ins), m);
    if ins.steps != 0 && Step(p, ins, m) == 0 {
      EndOnZeroIsHit(p, WalkAmount(ins), m);
    }
  }

  /**
   * As written, apply_instruction_count_zeros counts the mirrored turn: from
   * 10 on a dial of 100, "L10" brings the dial to rest on 0, the walk points
   * at 0 once, and the count is 0.
   */
  lemma CountingAmountMissesRestOnZero()
    ensures Step(10, Instruction(Left, 10), 100) == 0
    ensures ZeroHits(10, WalkAmount(Instruction(Left, 10)), 100) == 1
    ensures ZeroCrossings(10, CountingAmount(Instruction(Left, 10)), 100) == 0
  {
    WrapIsMod(0, 100);
    WalkAmountCountsTheWalk(10, Instruction(Left, 10), 100);
  }

  // ---------------------------------------------------------------------------
  // The dial

  class Safe {
    var position: int
    const digits: int
    const modulus: int

    predicate Valid()
    {
      digits >= 1 && modulus == SafeModulus(digits)
    }

    /** Safe(initial_position, num_digits) with num_digits >= 1; the position is kept as given. */
    constructor (initial: int, numDigits: int)
      requires numDigits >= 1
      ensures Valid() && position == initial && digits == numDigits
    {
      position := initial;
      digits := numDigits;
      modulus := SafeModulus(numDigits);
    }

    /** turn_right: the new position is on the dial and congruent to position + amount. */
    method TurnRight(amount: int)
      requires Valid()
      modifies this
      ensures position == Wrap(old(position) + amount, modulus)
    {
      var next := CRem(position + amount, modulus);
      position := if next < 0 then next + modulus else next;
    }

    /** turn_left: the new position is on the dial and congruent to position - amount. */
    method TurnLeft(amount: int)
      requires Valid()
      modifies this
      ensures position == Wrap(old(position) - amount, modulus)
    {
      var next := CRem(position - amount, modulus);
      position := if next < 0 then next + modulus else next;
    }

    /**
     * turn_count_zeros: turns right by a positive amount and left by the
     * magnitude of any other, and returns how often the dial pointed at 0 on
     * the way (when it started on the dial).
     */
    method TurnCountZeros(amount: int) returns (zeros: int)
      requires Valid()
      modifies this
      ensures zeros == ZeroCrossings(old(position), amount, modulus)
      ensures 0 <= old(position) < modulus ==> zeros == ZeroHits(old(position), amount, modulus)
      ensures position == Wrap(old(position) + amount, modulus)
    {
      if 0 <= position < modulus {
        ZeroCrossingsCorrect(position, amount, modulus);
      }
      var a := if amount < 0 then -amount else amount;
      var n := a / modulus;
      var remainder := a % modulus;
      if amount > 0 {
        zeros := n + (if position + remainder >= modulus then 1 else 0);
        TurnRight(a);
      } else {
        zeros := n + (if position - remainder <= 0 then 1 else 0) - (if position == 0 then 1 else 0);
        TurnLeft(a);
      }
    }

    method ApplyInstruction(ins: Instruction)
      requires Valid()
      modifies this
      ensures position == Step(old(position), ins, modulus)
    {
      if ins.direction == Left {
        TurnLeft(ins.steps);
      } else {
        TurnRight(ins.steps);
      }
    }

    method ApplyInstructionCountZeros(ins: Instruction) returns (zeros: int)
      requires Valid()
      modifies this
      ensures zeros == ZeroCrossings(old(position), CountingAmount(ins), modulus)
      ensures position == Wrap(old(position) + CountingAmount(ins), modulus)
    {
      if ins.direction == Left {
        zeros := TurnCountZeros(ins.steps);
      } else {
        zeros := TurnCountZeros(-ins.steps);
      }
    }
  }

  // ---------------------------------------------------------------------------
  // Reading the password

  /**
   * Every string read by parse, in order; None as soon as one fails. With
   * InstructionFromString as parse this is the reading of the instruction
   * strings, where from_string throws on the first it cannot read.
   */
  function ParseEach<T>(parse: string -> Option<T>, strs: seq<string>): (r: Option<seq<T>>)
    ensures r.Some? ==> |r.value| == |strs|
    ensures r.Some? ==> forall k | 0 <= k < |strs| :: parse(strs[k]) == Some(r.value[k])
    decreases |strs|
  {
    if |strs| == 0 then Some([])
    else
      var n := |strs| - 1;
      match ParseEach(parse, strs[..n])
      case None => None
      case Some(prefix) =>
        match parse(strs[n])
        case None => None
        case Some(x) =>
          ParsedSnoc(parse, strs, prefix, x);
          Some(prefix + [x])
  }

  lemma ParsedSnoc<T>(parse: string -> Option<T>, strs: seq<string>, prefix: seq<T>, x: T)
    requires |strs| > 0 && |prefix| == |strs| - 1
    requires forall k | 0 <= k < |prefix| :: parse(strs[..|prefix|][k]) == Some(prefix[k])
    requires parse(strs[|prefix|]) == Some(x)
    ensures forall k | 0 <= k < |strs| :: parse(strs[k]) == Some((prefix + [x])[k])
  {
    forall k | 0 <= k < |strs|
      ensures parse(strs[k]) == Some((prefix + [x])[k])
    {
      if k < |prefix| {
        assert strs[..|prefix|][k] == strs[k];
      }
    }
  }

  /** The list is read exactly when every string in it is. */
  lemma {:induction false} ParseEachAll<T>(parse: string -> Option<T>, strs: seq<string>)
    ensures ParseEach(parse, strs).Some? <==> forall k | 0 <= k < |strs| :: parse(strs[k]).Some?
    decreases |strs|
  {
    if |strs| > 0 && forall k | 0 <= k < |strs| :: parse(strs[k]).Some? {
      var n := |strs| - 1;
      var init := strs[..n];
      assert forall k | 0 <= k < n :: parse(init[k]).Some? by {
        forall k | 0 <= k < n
          ensures parse(init[k]).Some?
        {
          assert init[k] == strs[k];
        }
      }
      ParseEachAll(parse, init);
      assert parse(strs[n]).Some?;
    }
  }

  /** The positions get_positions records: the initial one, then one after each instruction. */
  function Positions(p: int, ins: seq<Instruction>, m: int): (ps: seq<int>)
    requires m > 0
    ensures |ps| == |ins| + 1 && ps[0] == p
    decreases |ins|
  {
    if |ins| == 0 then [p]
    else
      var prev := Positions(p, ins[..|ins| - 1], m);
      prev + [Step(prev[|prev| - 1], ins[|ins| - 1], m)]
  }

  /** Each recorded position is the previous one moved by the instruction in between. */
  lemma {:induction false} PositionsFollowSteps(p: int, ins: seq<Instruction>, m: int)
    requires m > 0
    ensures forall k | 1 <= k <= |ins| ::
      Positions(p, ins, m)[k] == Step(Positions(p, ins, m)[k - 1], ins[k - 1], m)
    decreases |ins|
  {
    if |ins| > 0 {
      var init := ins[..|ins| - 1];
      PositionsFollowSteps(p, init, m);
      var ps := Positions(p, ins, m);
      var prev := Positions(p, init, m);
      forall k | 1 <= k <= |ins|
        ensures ps[k] == Step(ps[k - 1], ins[k - 1], m)
      {
        if k < |ins| {
          assert ps[k - 1] == prev[k - 1] && ps[k] == prev[k] && init[k - 1] == ins[k - 1];
        }
      }
    }
  }

  /** get_positions: None when num_digits < 1 or an instruction cannot be read. */
  function GetPositionsSpec(strs: seq<string>, initial: int, digits: int): Option<seq<int>>
  {
    if digits < 1 then None
    else match ParseEach(InstructionFromString, strs)
      case None => None
      case Some(ins) => Some(Positions(initial, ins, SafeModulus(digits)))
  }

  /** get_positions: the loop over the instruction strings, recording the position after each. */
  method GetPositions(strs: seq<string>, initial: int, digits: int) returns (r: Option<seq<int>>)
    ensures r == GetPositionsSpec(strs, initial, digits)
    ensures r.Some? ==> |r.value| == |strs| + 1 && r.value[0] == initial
  {
    if digits < 1 {
      return None;
    }
    var safe := new Safe(initial, digits);
    var positions := [safe.position];
    ghost var ins: seq<Instruction> := [];
    var i := 0;
    while i < |strs|
      invariant 0 <= i <= |strs| && safe.Valid() && safe.modulus == SafeModulus(digits)
      invariant ParseEach(InstructionFromString, strs[..i]) == Some(ins)
      invariant positions == Positions(initial, ins, safe.modulus)
      invariant safe.position == positions[|positions| - 1]
    {
      var instruction := InstructionFromString(strs[i]);
      if instruction.None? {
        NoParseAfter(InstructionFromString, strs, i + 1);
        return None;
      }
      ParsePrefixStep(InstructionFromString, strs, i, ins, instruction.value);
      PositionsStep(initial, ins, instruction.value, safe.modulus);
      safe.ApplyInstruction(instruction.value);
      ins := ins + [instruction.value];
      positions := positions + [safe.position];
      i := i + 1;
    }
    assert strs[..i] == strs;
    r := Some(positions);
  }

  /** Once a prefix reads and the string after it does not, the whole list fails. */
  lemma {:induction false} NoParseAfter<T>(parse: string -> Option<T>, strs: seq<string>, n: nat)
    requires 0 < n <= |strs| && ParseEach(parse, strs[..n - 1]).Some? && parse(strs[n - 1]).None?
    ensures ParseEach(parse, strs).None?
    decreases |strs| - n
  {
    assert strs[..n][..n - 1] == strs[..n - 1];
    if n == |strs| {
      assert strs[..n] == strs;
    } else {
      NoParsePrefix(parse, strs, n);
    }
  }

  /** A list whose prefix strs[..n] fails to parse fails as a whole. */
  lemma {:induction false} NoParsePrefix<T>(parse: string -> Option<T>, strs: seq<string>, n: nat)
    requires 0 < n <= |strs| && ParseEach(parse, strs[..n]).None?
    ensures ParseEach(parse, strs).None?
    decreases |strs| - n
  {
    if n < |strs| {
      assert strs[..n + 1][..n] == strs[..n];
      NoParsePrefix(parse, strs, n + 1);
    } else {
      assert strs[..n] == strs;
    }
  }

  /** Reading one more string extends the parsed prefix by what it reads as. */
  lemma ParsePrefixStep<T>(parse: string -> Option<T>, strs: seq<string>, i: nat, xs: seq<T>, next: T)
    requires i < |strs| && ParseEach(parse, strs[..i]) == Some(xs)
    requires parse(strs[i]) == Some(next)
    ensures ParseEach(parse, strs[..i + 1]) == Some(xs + [next])
  {
    assert strs[..i + 1][..i] == strs[..i];
  }

  /** Recording one more instruction appends the position it moves the dial to. */
  lemma PositionsStep(p: int, ins: seq<Instruction>, next: Instruction, m: int)
    requires m > 0
    ensures var ps := Positions(p, ins, m);
      Positions(p, ins + [next], m) == ps + [Step(ps[|ps| - 1], next, m)]
  {
    assert (ins + [next])[..|ins|] == ins;
  }

  /** Recording one more instruction appends the pair it produces. */
  lemma CrossingsStep(p: int, ins: seq<Instruction>, next: Instruction, m: int, from: int, pos: int, zeros: int)
    requires m > 0 && from == Resting(p, Crossings(p, ins, m))
    requires pos == Wrap(from + CountingAmount(next), m) && zeros == ZeroCrossings(from, CountingAmount(next), m)
    ensures var cs := Crossings(p, ins + [next], m);
      cs == Crossings(p, ins, m) + [(pos, zeros)] && Resting(p, cs) == pos
  {
    assert (ins + [next])[..|ins|] == ins;
  }

  /** The number of entries equal to 0, counted from the back. */
  function ZeroCount(ps: seq<int>): (c: nat)
    ensures c <= |ps|
  {
    if |ps| == 0 then 0 else ZeroCount(ps[..|ps| - 1]) + (if ps[|ps| - 1] == 0 then 1 else 0)
  }

  /** ZeroCount is the size of the set of indices holding 0. */
  lemma {:induction false} ZeroCountIsIndexCount(ps: seq<int>)
    ensures ZeroCount(ps) == |set k | 0 <= k < |ps| && ps[k] == 0|
  {
    if |ps| > 0 {
      var n := |ps| - 1;
      var init := ps[..n];
      ZeroCountIsIndexCount(init);
      var before := set k | 0 <= k < |init| && init[k] == 0;
      var all := set k | 0 <= k < |ps| && ps[k] == 0;
      if ps[n] == 0 {
        assert all == before + {n};
      } else {
        assert all == before;
      }
    }
  }

  /** count_zeros: the loop counting the positions equal to 0. */
  method CountZeros(positions: seq<int>) returns (count: nat)
    ensures count == ZeroCount(positions)
    ensures count == |set k | 0 <= k < |positions| && positions[k] == 0|
  {
    count := 0;
    var i := 0;
    while i < |positions|
      invariant 0 <= i <= |positions| && count == ZeroCount(positions[..i])
    {
      assert positions[..i + 1][..i] == positions[..i];
      if positions[i] == 0 {
        count := count + 1;
      }
      i := i + 1;
    }
    assert positions[..i] == positions;
    ZeroCountIsIndexCount(positions);
  }

  /** crack: the number of recorded positions that are 0, the initial one included. */
  method Crack(strs: seq<string>, initial: int, digits: int) returns (r: Option<nat>)
    ensures GetPositionsSpec(strs, initial, digits).None? <==> r.None?
    ensures r.Some? ==> r.value == ZeroCount(GetPositionsSpec(strs, initial, digits).value)
  {
    var positions := GetPositions(strs, initial, digits);
    if positions.None? {
      return None;
    }
    var count := CountZeros(positions.value);
    r := Some(count);
  }

  /** Where the dial rests after the recorded pairs: the last recorded position, or p before any. */
  function Resting(p: int, cs: seq<(int, int)>): int
  {
    if |cs| == 0 then p else cs[|cs| - 1].0
  }

  /** The (position, count) pair one instruction of get_position_zero_crossings records, starting at `from`. */
  function CrossingStep(from: int, ins: Instruction, m: int): (int, int)
    requires m > 0
  {
    var amount := CountingAmount(ins);
    (Wrap(from + amount, m), ZeroCrossings(from, amount, m))
  }

  /** The (position, count) pairs get_position_zero_crossings records, one per instruction. */
  function Crossings(p: int, ins: seq<Instruction>, m: int): (cs: seq<(int, int)>)
    requires m > 0
    ensures |cs| == |ins|
    decreases |ins|
  {
    if |ins| == 0 then []
    else
      var prev := Crossings(p, ins[..|ins| - 1], m);
      prev + [CrossingStep(Resting(p, prev), ins[|ins| - 1], m)]
  }

  /**
   * Each count is the number of moments the dial points at 0 during that
   * instruction's turn, and every recorded position is on the dial.
   */
  lemma {:induction false} CrossingsCountHits(p: int, ins: seq<Instruction>, m: int)
    requires m > 0 && 0 <= p < m
    ensures forall k | 0 <= k < |ins| :: 0 <= Crossings(p, ins, m)[k].0 < m
    ensures forall k | 0 <= k < |ins| ::
      Crossings(p, ins, m)[k].1 == ZeroHits(Resting(p, Crossings(p, ins, m)[..k]), CountingAmount(ins[k]), m)
    decreases |ins|
  {
    if |ins| > 0 {
      var n := |ins| - 1;
      var init := ins[..n];
      CrossingsCountHits(p, init, m);
      var cs := Crossings(p, ins, m);
      var prev := Crossings(p, init, m);
      assert cs[..n] == prev;
      forall k | 0 <= k < |ins|
        ensures 0 <= cs[k].0 < m
        ensures cs[k].1 == ZeroHits(Resting(p, cs[..k]), CountingAmount(ins[k]), m)
      {
        if k < n {
          assert cs[k] == prev[k] && init[k] == ins[k] && cs[..k] == prev[..k];
        } else {
          assert 0 <= Resting(p, prev) < m;
          ZeroCrossingsCorrect(Resting(p, prev), CountingAmount(ins[k]), m);
        }
      }
    }
  }

  /** get_position_zero_crossings: None when num_digits < 1 or an instruction cannot be read. */
  function GetCrossingsSpec(strs: seq<string>, initial: int, digits: int): Option<seq<(int, int)>>
  {
    if digits < 1 then None
    else match ParseEach(InstructionFromString, strs)
      case None => None
      case Some(ins) => Some(Crossings(initial, ins, SafeModulus(digits)))
  }

  /** get_position_zero_crossings: the loop over the instruction strings, recording position and count. */
  method GetPositionZeroCrossings(strs: seq<string>, initial: int, digits: int) returns (r: Option<seq<(int, int)>>)
    ensures r == GetCrossingsSpec(strs, initial, digits)
  {
    if digits < 1 {
      return None;
    }
    var safe := new Safe(initial, digits);
    var pairs: seq<(int, int)> := [];
    ghost var ins: seq<Instruction> := [];
    var i := 0;
    while i < |strs|
      invariant 0 <= i <= |strs| && safe.Valid() && safe.modulus == SafeModulus(digits)
      invariant ParseEach(InstructionFromString, strs[..i]) == Some(ins)
      invariant pairs == Crossings(initial, ins, safe.modulus)
      invariant safe.position == Resting(initial, pairs)
    {
      var instruction := InstructionFromString(strs[i]);
      if instruction.None? {
        NoParseAfter(InstructionFromString, strs, i + 1);
        return None;
      }
      var next := instruction.value;
      ParsePrefixStep(InstructionFromString, strs, i, ins, next);
      ghost var from := safe.position;
      var zeros := safe.ApplyInstructionCountZeros(next);
      CrossingsStep(initial, ins, next, safe.modulus, from, safe.position, zeros);
      ins := ins + [next];
      pairs := pairs + [(safe.position, zeros)];
      i := i + 1;
    }
    assert strs[..i] == strs;
    r := Some(pairs);
  }

  /** The sum of the counts, counted from the back. */
  function CountSum(cs: seq<(int, int)>): int
  {
    if |cs| == 0 then 0 else CountSum(cs[..|cs| - 1]) + cs[|cs| - 1].1
  }

  /** With every count a number of hits, the total is never negative. */
  lemma {:induction false} CountSumNonNegative(cs: seq<(int, int)>)
    requires forall k | 0 <= k < |cs| :: cs[k].1 >= 0
    ensures CountSum(cs) >= 0
  {
    if |cs| > 0 {
      CountSumNonNegative(cs[..|cs| - 1]);
    }
  }

  /** crack_true: the sum of the per-instruction counts of get_position_zero_crossings. */
  method CrackTrue(strs: seq<string>, initial: int, digits: int) returns (r: Option<int>)
    ensures GetCrossingsSpec(strs, initial, digits).None? <==> r.None?
    ensures r.Some? ==> r.value == CountSum(GetCrossingsSpec(strs, initial, digits).value)
  {
    var pairs := GetPositionZeroCrossings(strs, initial, digits);
    if pairs.None? {
      return None;
    }
    var cs := pairs.value;
    var count := 0;
    var i := 0;
    while i < |cs|
      invariant 0 <= i <= |cs| && count == CountSum(cs[..i])
    {
      assert cs[..i + 1][..i] == cs[..i];
      count := count + cs[i].1;
      i := i + 1;
    }
    assert cs[..i] == cs;
    r := Some(count);
  }
}
