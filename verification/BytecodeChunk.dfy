/** Bytecode chunks: variable-length instructions appended to a byte vector, jumps
    patched once their target is known, two independent decoders that must agree
    on instruction boundaries, and a run-length table of source spans. */
module BytecodeChunk {
  import opened Wrappers

  // ------------------------------------------------------------------------ opcodes

  /** An opcode is its position in the enumeration; `INVALID` is the last one. */
  type Op = x: nat | x <= INVALID

  const CONSTANT := 0
  const JUMP := 13
  const JUMP_IF_NO_FINALISE_REQUEST := 18
  const ATTRS := 19
  const PUSH_WITH := 25
  const LIST := 28
  const INTERPOLATE := 30
  const COERCE_TO_STRING := 31
  const INTERPOLATE_PATH := 34
  const GET_LOCAL := 37
  const CLOSE_SCOPE := 38
  const GET_UPVALUE := 41
  const CLOSURE := 42
  const THUNK_CLOSURE := 43
  const THUNK_SUSPENDED := 44
  const FINALISE := 46
  const INVALID := 48

  datatype OpArg = NoArg | Uvarint | Fixed | Custom

  function OpOf(num: byte): (op: Op)
    ensures if num < 48 then op == num else op == INVALID
  {
    if num >= INVALID then INVALID else num
  }

  function ArgType(op: Op): OpArg {
    if op == CONSTANT || op == ATTRS || op == PUSH_WITH || op == LIST || op == INTERPOLATE
       || op == INTERPOLATE_PATH || op == GET_LOCAL || op == CLOSE_SCOPE || op == GET_UPVALUE
       || op == FINALISE then Uvarint
    else if JUMP <= op <= JUMP_IF_NO_FINALISE_REQUEST then Fixed
    else if op == COERCE_TO_STRING || op == CLOSURE || op == THUNK_CLOSURE || op == THUNK_SUSPENDED then Custom
    else NoArg
  }

  /** The operations in the order of the enumeration. */
  datatype OpName =
    | OpConstant | OpPop | OpInvert | OpNegate | OpAdd | OpSub | OpMul | OpDiv | OpEqual | OpLess
    | OpLessOrEq | OpMore | OpMoreOrEq | OpJump | OpJumpIfTrue | OpJumpIfFalse | OpJumpIfCatchable
    | OpJumpIfNotFound | OpJumpIfNoFinaliseRequest | OpAttrs | OpAttrsUpdate | OpAttrsSelect
    | OpAttrsTrySelect | OpHasAttr | OpValidateClosedFormals | OpPushWith | OpPopWith | OpResolveWith
    | OpList | OpConcat | OpInterpolate | OpCoerceToString | OpFindFile | OpResolveHomePath
    | OpInterpolatePath | OpAssertBool | OpAssertAttrs | OpGetLocal | OpCloseScope | OpAssertFail | OpCall
    | OpGetUpvalue | OpClosure | OpThunkClosure | OpThunkSuspended | OpForce | OpFinalise | OpReturn
    | OpInvalid

  function Number(n: OpName): Op {
    match n
    case OpConstant => 0 case OpPop => 1 case OpInvert => 2 case OpNegate => 3 case OpAdd => 4 case OpSub => 5
    case OpMul => 6 case OpDiv => 7 case OpEqual => 8 case OpLess => 9 case OpLessOrEq => 10 case OpMore => 11
    case OpMoreOrEq => 12 case OpJump => 13 case OpJumpIfTrue => 14 case OpJumpIfFalse => 15
    case OpJumpIfCatchable => 16 case OpJumpIfNotFound => 17 case OpJumpIfNoFinaliseRequest => 18
    case OpAttrs => 19 case OpAttrsUpdate => 20 case OpAttrsSelect => 21 case OpAttrsTrySelect => 22
    case OpHasAttr => 23 case OpValidateClosedFormals => 24 case OpPushWith => 25 case OpPopWith => 26
    case OpResolveWith => 27 case OpList => 28 case OpConcat => 29 case OpInterpolate => 30
    case OpCoerceToString => 31 case OpFindFile => 32 case OpResolveHomePath => 33 case OpInterpolatePath => 34
    case OpAssertBool => 35 case OpAssertAttrs => 36 case OpGetLocal => 37 case OpCloseScope => 38
    case OpAssertFail => 39 case OpCall => 40 case OpGetUpvalue => 41 case OpClosure => 42
    case OpThunkClosure => 43 case OpThunkSuspended => 44 case OpForce => 45 case OpFinalise => 46
    case OpReturn => 47 case OpInvalid => 48
  }

  /** What an operation is followed by. */
  function ArgOf(n: OpName): OpArg {
    match n
    case OpConstant | OpAttrs | OpPushWith | OpList | OpInterpolate | OpInterpolatePath | OpGetLocal | OpCloseScope
         | OpGetUpvalue | OpFinalise => Uvarint
    case OpJump | OpJumpIfTrue | OpJumpIfFalse | OpJumpIfCatchable | OpJumpIfNotFound
         | OpJumpIfNoFinaliseRequest => Fixed
    case OpCoerceToString | OpClosure | OpThunkClosure | OpThunkSuspended => Custom
    case _ => NoArg
  }

  /** The numbers used give the right arguments. */
  lemma OpArguments(n: OpName)
    ensures ArgType(Number(n)) == ArgOf(n)
  {
  }

  /** They are the positions in the enumeration. */
  lemma OpNumbers(n: OpName)
    ensures n == OpCoerceToString <==> Number(n) == COERCE_TO_STRING
    ensures n == OpClosure <==> Number(n) == CLOSURE
    ensures n == OpThunkClosure <==> Number(n) == THUNK_CLOSURE
    ensures n == OpThunkSuspended <==> Number(n) == THUNK_SUSPENDED
    ensures n == OpInvalid <==> Number(n) == INVALID
  {
  }

  // ------------------------------------------------------------------ the varint code

  /** A prefix code of 1 to 9 bytes; decoding looks at nine bytes and ignores
      whatever follows the encoded number. */
  datatype Codec = Codec(encode: u64 -> seq<byte>, decode: seq<byte> -> (u64, nat)) {
    ghost predicate Valid() {
      && (forall x: u64 {:trigger encode(x)} :: 1 <= |encode(x)| <= 9)
      && (forall x: u64, nine: seq<byte> {:trigger Recovers(x, nine)} :: Recovers(x, nine))
    }

    ghost predicate Recovers(x: u64, nine: seq<byte>) {
      |nine| == 9 && HoldsAt(nine, 0, encode(x)) ==> decode(nine) == (x, |encode(x)|)
    }
  }

  /** `part` is what `code` holds from `at` on. */
  ghost predicate HoldsAt(code: seq<byte>, at: int, part: seq<byte>) {
    && 0 <= at && at + |part| <= |code|
    && forall i {:trigger part[i]} :: 0 <= i < |part| ==> part[i] == code[at + i]
  }

  lemma HoldsFirst(code: seq<byte>, at: int, a: seq<byte>, b: seq<byte>)
    requires HoldsAt(code, at, a + b)
    ensures HoldsAt(code, at, a) && HoldsAt(code, at + |a|, b)
  {
    forall i | 0 <= i < |a| ensures a[i] == code[at + i] {
      assert (a + b)[i] == code[at + i];
    }
    forall i | 0 <= i < |b| ensures b[i] == code[at + |a| + i] {
      assert (a + b)[|a| + i] == code[at + (|a| + i)];
    }
  }

  function ReadUvarint(c: Codec, code: seq<byte>, idx: nat): (u64, nat)
    requires idx <= |code|
  {
    if |code| - idx >= 9 then c.decode(code[idx..idx + 9])
    else c.decode(code[idx..] + seq(9 - (|code| - idx), _ => 0))
  }

  lemma ReadUvarintIs(c: Codec, code: seq<byte>, idx: nat, x: u64)
    requires c.Valid() && HoldsAt(code, idx, c.encode(x))
    ensures ReadUvarint(c, code, idx) == (x, |c.encode(x)|)
  {
    var enc := c.encode(x);
    if |code| - idx >= 9 {
      assert HoldsAt(code[idx..idx + 9], 0, enc);
      assert c.Recovers(x, code[idx..idx + 9]);
    } else {
      var nine := code[idx..] + seq(9 - (|code| - idx), _ => 0);
      assert HoldsAt(nine, 0, enc);
      assert c.Recovers(x, nine);
    }
  }

  // ------------------------------------------------------------------- instructions

  /** One instruction as the compiler emits it. */
  datatype Instr =
    | Plain(op: Op)
    | WithArg(op: Op, arg: u64)
    | Jump(op: Op, offset: nat)
    | Coerce(kind: byte)
    | Capture(op: Op, blueprint: u64, packed: u64, positions: seq<u64>)
  {
    function Opcode(): Op {
      if Coerce? then COERCE_TO_STRING else op
    }

    predicate WellFormed() {
      match this
      case Plain(op) => ArgType(op) == NoArg
      case WithArg(op, _) => ArgType(op) == Uvarint
      case Jump(op, offset) => ArgType(op) == Fixed && offset < 65536
      case Coerce(_) => true
      case Capture(op, _, packed, positions) =>
        (op == CLOSURE || op == THUNK_CLOSURE || op == THUNK_SUSPENDED) && packed / 2 == |positions|
    }
  }

  function EncodeAll(c: Codec, xs: seq<u64>): seq<byte> {
    if xs == [] then [] else c.encode(xs[0]) + EncodeAll(c, xs[1..])
  }

  function U16(x: nat): (r: seq<byte>)
    requires x < 65536
    ensures |r| == 2 && r[0] as int + 256 * r[1] as int == x
  {
    [x % 256, x / 256]
  }

  /** `read_u16`: little-endian. */
  function ReadU16(code: seq<byte>, idx: nat): (x: nat)
    requires idx + 2 <= |code|
    ensures x < 65536
  {
    var low: int, high: int := code[idx], code[idx + 1];
    low + 256 * high
  }

  function Operands(c: Codec, i: Instr): seq<byte>
    requires i.WellFormed()
  {
    match i
    case Plain(_) => []
    case WithArg(_, arg) => c.encode(arg)
    case Jump(_, offset) => U16(offset)
    case Coerce(kind) => [kind]
    case Capture(_, bp, packed, positions) =>
      c.encode(bp) + (c.encode(packed) + EncodeAll(c, positions))
  }

  function Encode(c: Codec, i: Instr): seq<byte>
    requires i.WellFormed()
  {
    [i.Opcode()] + Operands(c, i)
  }

  /** The instruction `i` occupies the bytes from `from` to `to`. */
  ghost predicate InstrAt(c: Codec, code: seq<byte>, i: Instr, from: nat, to: nat) {
    i.WellFormed() && to == from + |Encode(c, i)| && HoldsAt(code, from, Encode(c, i))
  }

  /** The code consists of the instructions, one after the other without gaps,
      each starting at its offset. */
  ghost predicate Laid(c: Codec, instrs: seq<Instr>, offs: seq<nat>, code: seq<byte>) {
    && |offs| == |instrs| + 1
    && offs[0] == 0 && offs[|instrs|] == |code|
    && (forall j, k :: 0 <= j < k < |offs| ==> offs[j] < offs[k])
    && forall k {:trigger InstrAt(c, code, instrs[k], offs[k], offs[k + 1])} ::
         0 <= k < |instrs| ==> InstrAt(c, code, instrs[k], offs[k], offs[k + 1])
  }

  lemma InstrAtFrame(c: Codec, code: seq<byte>, code': seq<byte>, i: Instr, from: nat, to: nat)
    requires InstrAt(c, code, i, from, to) && to <= |code'|
    requires forall p {:trigger code'[p]} :: from <= p < to ==> code'[p] == code[p]
    ensures InstrAt(c, code', i, from, to)
  {
    var e := Encode(c, i);
    forall n | 0 <= n < |e| ensures e[n] == code'[from + n] {
      assert e[n] == code[from + n];
    }
  }

  lemma InstrAtEnd(c: Codec, code: seq<byte>, i: Instr)
    requires i.WellFormed()
    ensures var code' := code + ([i.Opcode() as byte] + Operands(c, i));
            InstrAt(c, code', i, |code|, |code'|) && |code'| > |code|
  {
  }

  /** Appending an instruction keeps the layout. */
  lemma LaidAppend(c: Codec, instrs: seq<Instr>, offs: seq<nat>, code: seq<byte>, i: Instr, code': seq<byte>)
    requires Laid(c, instrs, offs, code) && i.WellFormed()
    requires code' == code + ([i.Opcode() as byte] + Operands(c, i))
    ensures Laid(c, instrs + [i], offs + [|code'|], code')
  {
    InstrAtEnd(c, code, i);
    var instrs', offs' := instrs + [i], offs + [|code'|];
    forall k | 0 <= k < |instrs'| ensures InstrAt(c, code', instrs'[k], offs'[k], offs'[k + 1]) {
      if k < |instrs| {
        assert InstrAt(c, code, instrs[k], offs[k], offs[k + 1]);
        InstrAtFrame(c, code, code', instrs[k], offs[k], offs[k + 1]);
      }
    }
  }

  // ----------------------------------------------------------------------- decoding

  /** What the first bytes of an instruction tell a decoder. */
  lemma EncodeHolds(c: Codec, code: seq<byte>, idx: nat, i: Instr)
    requires i.WellFormed() && HoldsAt(code, idx, Encode(c, i))
    ensures idx < |code| && code[idx] == i.Opcode() && OpOf(code[idx]) == i.Opcode()
    ensures HoldsAt(code, idx + 1, Operands(c, i))
  {
    HoldsFirst(code, idx, [i.Opcode()], Operands(c, i));
    assert [i.Opcode()][0] == code[idx + 0];
  }

  /** The operands of a capturing instruction, one after the other. */
  lemma CaptureHolds(c: Codec, code: seq<byte>, at: nat, i: Instr)
    requires c.Valid() && i.Capture? && i.WellFormed() && HoldsAt(code, at, Operands(c, i))
    ensures ReadUvarint(c, code, at) == (i.blueprint, |c.encode(i.blueprint)|)
    ensures var at2 := at + |c.encode(i.blueprint)|;
            && at2 <= |code|
            && ReadUvarint(c, code, at2) == (i.packed, |c.encode(i.packed)|)
            && HoldsAt(code, at2 + |c.encode(i.packed)|, EncodeAll(c, i.positions))
  {
    var a, b, rest := c.encode(i.blueprint), c.encode(i.packed), EncodeAll(c, i.positions);
    HoldsFirst(code, at, a, b + rest);
    HoldsFirst(code, at + |a|, b, rest);
    ReadUvarintIs(c, code, at, i.blueprint);
    ReadUvarintIs(c, code, at + |a|, i.packed);
  }

  /** Skips `count` varints, as both decoders do for captured upvalues. */
  method SkipUvarints(c: Codec, code: seq<byte>, at: nat, count: nat, ghost xs: seq<u64>) returns (end: nat)
    requires c.Valid() && |xs| == count && HoldsAt(code, at, EncodeAll(c, xs))
    ensures end == at + |EncodeAll(c, xs)|
  {
    end := at;
    var n := 0;
    ghost var rest := xs;
    while n < count
      invariant 0 <= n <= count && |rest| == count - n
      invariant HoldsAt(code, end, EncodeAll(c, rest))
      invariant end + |EncodeAll(c, rest)| == at + |EncodeAll(c, xs)|
    {
      HoldsFirst(code, end, c.encode(rest[0]), EncodeAll(c, rest[1..]));
      ReadUvarintIs(c, code, end, rest[0]);
      var (_, size) := ReadUvarint(c, code, end);
      end := end + size;
      rest := rest[1..];
      n := n + 1;
    }
  }

  /** The kind of operand tells the kind of instruction. */
  lemma KindOf(i: Instr)
    requires i.WellFormed()
    ensures ArgType(i.Opcode()) == match i
            case Plain(_) => NoArg
            case WithArg(_, _) => Uvarint
            case Jump(_, _) => Fixed
            case _ => Custom
    ensures ArgType(i.Opcode()) == Custom ==> (i.Opcode() == COERCE_TO_STRING <==> i.Coerce?)
  {
  }

  lemma ArgAt(c: Codec, code: seq<byte>, idx: nat, i: Instr)
    requires c.Valid() && i.WithArg? && i.WellFormed() && HoldsAt(code, idx, Encode(c, i))
    ensures idx + 1 <= |code|
    ensures var (arg, size) := ReadUvarint(c, code, idx + 1);
            arg == i.arg && InstrAt(c, code, i, idx, idx + 1 + size)
  {
    EncodeHolds(c, code, idx, i);
    ReadUvarintIs(c, code, idx + 1, i.arg);
  }

  lemma JumpAt(c: Codec, code: seq<byte>, idx: nat, i: Instr)
    requires i.Jump? && i.WellFormed() && HoldsAt(code, idx, Encode(c, i))
    ensures idx + 3 <= |code| && InstrAt(c, code, i, idx, idx + 3)
    ensures ReadU16(code, idx + 1) == i.offset
  {
    EncodeHolds(c, code, idx, i);
    var operand := U16(i.offset);
    assert operand[0] == code[idx + 1 + 0] && operand[1] == code[idx + 1 + 1];
  }

  lemma CoerceAt(c: Codec, code: seq<byte>, idx: nat, i: Instr)
    requires i.Coerce? && HoldsAt(code, idx, Encode(c, i))
    ensures idx + 2 <= |code| && InstrAt(c, code, i, idx, idx + 2) && code[idx + 1] == i.kind
  {
    EncodeHolds(c, code, idx, i);
    assert [i.kind][0] == code[idx + 1 + 0];
  }

  /** Where a capturing instruction ends. */
  ghost function CaptureEnd(c: Codec, idx: nat, i: Instr): nat
    requires i.Capture?
  {
    idx + 1 + |c.encode(i.blueprint)| + |c.encode(i.packed)| + |EncodeAll(c, i.positions)|
  }

  lemma CaptureAt(c: Codec, code: seq<byte>, idx: nat, i: Instr)
    requires i.Capture? && i.WellFormed() && HoldsAt(code, idx, Encode(c, i))
    ensures InstrAt(c, code, i, idx, CaptureEnd(c, idx, i))
  {
  }

  lemma CaptureOperands(c: Codec, code: seq<byte>, idx: nat, i: Instr)
    requires c.Valid() && i.Capture? && i.WellFormed() && HoldsAt(code, idx, Encode(c, i))
    ensures idx + 1 <= |code|
    ensures ReadUvarint(c, code, idx + 1) == (i.blueprint, |c.encode(i.blueprint)|)
    ensures var at := idx + 1 + |c.encode(i.blueprint)|;
            && at <= |code|
            && ReadUvarint(c, code, at) == (i.packed, |c.encode(i.packed)|)
            && HoldsAt(code, at + |c.encode(i.packed)|, EncodeAll(c, i.positions))
  {
    EncodeHolds(c, code, idx, i);
    CaptureHolds(c, code, idx + 1, i);
  }

  /** Reads a capturing instruction the way both decoders do. */
  method ReadCapture(c: Codec, code: seq<byte>, idx: nat, ghost i: Instr)
    returns (blueprint: u64, packed: u64, end: nat)
    requires c.Valid() && i.Capture? && i.WellFormed() && HoldsAt(code, idx, Encode(c, i))
    ensures blueprint == i.blueprint && packed == i.packed && end == CaptureEnd(c, idx, i)
  {
    CaptureOperands(c, code, idx, i);
    var (first, size) := ReadUvarint(c, code, idx + 1);
    var at := idx + 1 + size;
    var (second, size2) := ReadUvarint(c, code, at);
    blueprint, packed := first, second;
    end := SkipUvarints(c, code, at + size2, packed / 2, i.positions);
  }

  /** The length `op_count` computes for the instruction at `idx`. */
  method OpLength(c: Codec, code: seq<byte>, idx: nat, ghost i: Instr) returns (opLen: nat)
    requires c.Valid() && i.WellFormed() && HoldsAt(code, idx, Encode(c, i))
    ensures InstrAt(c, code, i, idx, idx + opLen)
  {
    EncodeHolds(c, code, idx, i);
    KindOf(i);
    var op := OpOf(code[idx]);
    match ArgType(op)
    case NoArg => opLen := 1;
    case Uvarint =>
      ArgAt(c, code, idx, i);
      var (_, len) := ReadUvarint(c, code, idx + 1);
      opLen := len + 1;
    case Fixed =>
      JumpAt(c, code, idx, i);
      opLen := 3;
    case Custom =>
      if op == COERCE_TO_STRING {
        CoerceAt(c, code, idx, i);
        opLen := 2;
      } else {
        CaptureAt(c, code, idx, i);
        var _, _, end := ReadCapture(c, code, idx, i);
        opLen := end - idx;
      }
  }

  /** What the disassembler shows of an instruction: captured positions are skipped. */
  datatype Shown =
    | ShownPlain(op: Op)
    | ShownArg(op: Op, arg: u64)
    | ShownJump(op: Op, offset: nat)
    | ShownCoerce(kind: byte)
    | ShownCapture(op: Op, blueprint: u64, capturesWith: bool, count: nat)

  function ShowOf(i: Instr): Shown {
    match i
    case Plain(op) => ShownPlain(op)
    case WithArg(op, arg) => ShownArg(op, arg)
    case Jump(op, offset) => ShownJump(op, offset)
    case Coerce(kind) => ShownCoerce(kind)
    case Capture(op, blueprint, packed, positions) => ShownCapture(op, blueprint, packed % 2 == 1, |positions|)
  }

  /** `disassemble_op`: shows the operands that were emitted and returns how many bytes to skip. */
  method DisassembleOp(c: Codec, code: seq<byte>, idx: nat, ghost i: Instr) returns (size: nat, shown: Shown)
    requires c.Valid() && i.WellFormed() && HoldsAt(code, idx, Encode(c, i))
    ensures InstrAt(c, code, i, idx, idx + size) && shown == ShowOf(i)
  {
    EncodeHolds(c, code, idx, i);
    KindOf(i);
    var op := OpOf(code[idx]);
    match ArgType(op)
    case NoArg => size, shown := 1, ShownPlain(op);
    case Fixed =>
      JumpAt(c, code, idx, i);
      size, shown := 3, ShownJump(op, ReadU16(code, idx + 1));
    case Uvarint =>
      ArgAt(c, code, idx, i);
      var (arg, len) := ReadUvarint(c, code, idx + 1);
      size, shown := 1 + len, ShownArg(op, arg);
    case Custom =>
      if op == COERCE_TO_STRING {
        CoerceAt(c, code, idx, i);
        size, shown := 2, ShownCoerce(code[idx + 1]);
      } else {
        CaptureAt(c, code, idx, i);
        var blueprint, packed, end := ReadCapture(c, code, idx, i);
        size, shown := end - idx, ShownCapture(op, blueprint, packed % 2 == 1, packed / 2);
      }
  }

  // -------------------------------------------------------------------------- spans

  type Span = nat

  datatype SourceSpan = SourceSpan(span: Span, start: nat)

  ghost predicate Sorted(spans: seq<SourceSpan>) {
    forall i, j :: 0 <= i < j < |spans| ==> spans[i].start < spans[j].start
  }

  /** The span in force at an offset: that of the last entry starting at or before it. */
  ghost function SpanAt(spans: seq<SourceSpan>, offset: nat): Span
    requires spans != []
  {
    var n := |spans| - 1;
    if n == 0 || spans[n].start <= offset then spans[n].span else SpanAt(spans[..n], offset)
  }

  lemma {:induction false} SpanAtIs(spans: seq<SourceSpan>, offset: nat, i: nat)
    requires Sorted(spans) && i < |spans|
    requires spans[i].start <= offset || i == 0
    requires i + 1 == |spans| || offset < spans[i + 1].start
    ensures SpanAt(spans, offset) == spans[i].span
    decreases |spans|
  {
    var n := |spans| - 1;
    if i < n {
      assert offset < spans[n].start by {
        if i + 1 < n { assert spans[i + 1].start < spans[n].start; }
      }
      SpanAtIs(spans[..n], offset, i);
    }
  }

  /** Binary search on the starts: an exact hit, or the entry before the place it would have. */
  method GetSpan(spans: seq<SourceSpan>, offset: nat) returns (span: Span)
    requires spans != [] && Sorted(spans)
    ensures span == SpanAt(spans, offset)
  {
    var lo, hi := 0, |spans|;
    while lo < hi
      invariant 0 <= lo <= hi <= |spans|
      invariant forall i :: 0 <= i < lo ==> spans[i].start < offset
      invariant forall i :: hi <= i < |spans| ==> offset < spans[i].start
    {
      var mid := (lo + hi) / 2;
      if spans[mid].start == offset {
        SpanAtIs(spans, offset, mid);
        return spans[mid].span;
      } else if spans[mid].start < offset {
        lo := mid + 1;
      } else {
        hi := mid;
      }
    }
    var index := if lo == 0 then 0 else lo - 1;
    SpanAtIs(spans, offset, index);
    span := spans[index].span;
  }

  /** `off` is a byte of instruction `k`. */
  ghost predicate Within(offs: seq<nat>, k: nat, off: nat) {
    k + 1 < |offs| && offs[k] <= off < offs[k + 1]
  }

  /** The table gives every byte the span its instruction was emitted with. */
  ghost predicate SpansRight(offs: seq<nat>, spans: seq<SourceSpan>, emitted: seq<Span>) {
    && |offs| == |emitted| + 1
    && Sorted(spans)
    && (emitted == [] <==> spans == [])
    && (emitted != [] ==>
          && spans[|spans| - 1].span == emitted[|emitted| - 1]
          && spans[|spans| - 1].start <= offs[|emitted| - 1])
    && forall k: nat, off: nat {:trigger Within(offs, k, off)} ::
         Within(offs, k, off) ==> spans != [] && SpanAt(spans, off) == emitted[k]
  }

  /** `push_span`: nothing is added while the span stays the same. */
  function PushSpan(spans: seq<SourceSpan>, span: Span, start: nat): seq<SourceSpan> {
    if spans != [] && spans[|spans| - 1].span == span then spans
    else spans + [SourceSpan(span, start)]
  }

  lemma PushSpanOld(spans: seq<SourceSpan>, span: Span, start: nat, off: nat)
    requires spans != [] && off < start
    ensures SpanAt(PushSpan(spans, span, start), off) == SpanAt(spans, off)
  {
    assert (spans + [SourceSpan(span, start)])[..|spans|] == spans;
  }

  lemma PushSpanSorted(spans: seq<SourceSpan>, span: Span, start: nat)
    requires Sorted(spans) && (spans != [] ==> spans[|spans| - 1].start < start)
    ensures Sorted(PushSpan(spans, span, start))
  {
  }

  lemma PushSpanRight(offs: seq<nat>, spans: seq<SourceSpan>, emitted: seq<Span>, span: Span, end: nat)
    requires SpansRight(offs, spans, emitted) && offs[|emitted|] < end
    requires forall j, k :: 0 <= j < k < |offs| ==> offs[j] < offs[k]
    ensures SpansRight(offs + [end], PushSpan(spans, span, offs[|emitted|]), emitted + [span])
  {
    var n := |emitted|;
    var start := offs[n];
    var spans', offs' := PushSpan(spans, span, start), offs + [end];
    PushSpanSorted(spans, span, start);
    forall k: nat, off: nat | Within(offs', k, off) ensures SpanAt(spans', off) == (emitted + [span])[k] {
      if k < n {
        assert offs[k + 1] <= offs[n];
        assert Within(offs, k, off);
        PushSpanOld(spans, span, start, off);
      } else {
        SpanAtIs(spans', off, |spans'| - 1);
      }
    }
  }

  /** The distance from behind the jump at `idx` to the end of the code, cut to 16 bits. */
  function JumpOffset(len: nat, idx: nat): (offset: nat)
    requires idx + 3 <= len
    ensures offset < 65536
    ensures idx + 3 + offset == len <==> len - idx - 3 < 65536
  {
    (len - idx - 3) % 65536
  }

  /** The code with the two operand bytes of the jump at `idx` replaced, low byte first. */
  function Patched(code: seq<byte>, idx: nat, offset: nat): (r: seq<byte>)
    requires idx + 3 <= |code| && offset < 65536
    ensures |r| == |code|
  {
    code[idx + 1 := offset % 256][idx + 2 := offset / 256]
  }

  /** Before the end there is an instruction at each boundary. */
  lemma AtBoundary(c: Codec, instrs: seq<Instr>, offs: seq<nat>, code: seq<byte>, k: nat)
    requires Laid(c, instrs, offs, code) && k <= |instrs|
    ensures offs[k] < |code| <==> k < |instrs|
    ensures k < |instrs| ==> instrs[k].WellFormed() && HoldsAt(code, offs[k], Encode(c, instrs[k]))
  {
    if k < |instrs| { assert InstrAt(c, code, instrs[k], offs[k], offs[k + 1]); }
  }

  /** What a decoder steps by leads to the next boundary. */
  lemma NextBoundary(c: Codec, instrs: seq<Instr>, offs: seq<nat>, code: seq<byte>, k: nat, to: nat)
    requires Laid(c, instrs, offs, code) && k < |instrs| && InstrAt(c, code, instrs[k], offs[k], to)
    ensures to == offs[k + 1]
  {
    assert InstrAt(c, code, instrs[k], offs[k], offs[k + 1]);
  }

  /** One step of the disassembler. */
  method DisassembleNext(c: Codec, code: seq<byte>, idx: nat, ghost instrs: seq<Instr>, ghost offs: seq<nat>,
                         ghost k: nat)
    returns (next: nat, shown: Shown)
    requires c.Valid() && Laid(c, instrs, offs, code) && k < |instrs| && idx == offs[k]
    ensures next == offs[k + 1] && (next < |code| <==> k + 1 < |instrs|) && shown == ShowOf(instrs[k])
  {
    AtBoundary(c, instrs, offs, code, k);
    var size, shown' := DisassembleOp(c, code, idx, instrs[k]);
    NextBoundary(c, instrs, offs, code, k, idx + size);
    AtBoundary(c, instrs, offs, code, k + 1);
    next, shown := idx + size, shown';
  }

  /** What was visited are the boundaries of the first instructions, with what is shown there. */
  ghost predicate Visited(instrs: seq<Instr>, offs: seq<nat>, visited: seq<(nat, Shown)>) {
    && |visited| <= |instrs| < |offs|
    && forall k :: 0 <= k < |visited| ==> visited[k] == (offs[k], ShowOf(instrs[k]))
  }

  lemma VisitedSnoc(instrs: seq<Instr>, offs: seq<nat>, visited: seq<(nat, Shown)>)
    requires Visited(instrs, offs, visited) && |visited| < |instrs|
    ensures Visited(instrs, offs, visited + [(offs[|visited|], ShowOf(instrs[|visited|]))])
  {
  }

  /** The loop of `disassemble_chunk`. */
  method DisassembleCode(c: Codec, code: seq<byte>, ghost instrs: seq<Instr>, ghost offs: seq<nat>)
    returns (visited: seq<(nat, Shown)>)
    requires c.Valid() && Laid(c, instrs, offs, code)
    ensures |visited| == |instrs| && Visited(instrs, offs, visited)
  {
    visited := [];
    var idx := 0;
    AtBoundary(c, instrs, offs, code, 0);
    while idx < |code|
      invariant Visited(instrs, offs, visited)
      invariant idx == offs[|visited|] && (idx < |code| <==> |visited| < |instrs|)
      decreases |instrs| - |visited|
    {
      var next, shown := DisassembleNext(c, code, idx, instrs, offs, |visited|);
      VisitedSnoc(instrs, offs, visited);
      visited := visited + [(idx, shown)];
      idx := next;
    }
  }

  /** Code, spans and last operation are those of the instructions emitted. */
  ghost predicate Matches(c: Codec, code: seq<byte>, spans: seq<SourceSpan>, lastOp: nat,
                          instrs: seq<Instr>, offs: seq<nat>, emitted: seq<Span>)
  {
    && Laid(c, instrs, offs, code)
    && lastOp == (if instrs == [] then 0 else offs[|instrs| - 1])
    && |emitted| == |instrs|
    && SpansRight(offs, spans, emitted)
  }

  lemma MatchesPatched(c: Codec, code: seq<byte>, spans: seq<SourceSpan>, lastOp: nat,
                       instrs: seq<Instr>, offs: seq<nat>, emitted: seq<Span>, k: nat)
    requires Matches(c, code, spans, lastOp, instrs, offs, emitted) && k < |instrs| && instrs[k].Jump?
    ensures offs[k] + 3 <= |code|
    ensures var offset := JumpOffset(|code|, offs[k]);
            Matches(c, Patched(code, offs[k], offset), spans, lastOp,
                    instrs[k := Jump(instrs[k].op, offset)], offs, emitted)
  {
    JumpLength(c, instrs, offs, code, k);
    LaidPatch(c, instrs, offs, code, k, JumpOffset(|code|, offs[k]));
  }

  lemma MatchesAppended(c: Codec, code: seq<byte>, spans: seq<SourceSpan>, lastOp: nat, instrs: seq<Instr>,
                        offs: seq<nat>, emitted: seq<Span>, i: Instr, span: Span, code': seq<byte>)
    requires Matches(c, code, spans, lastOp, instrs, offs, emitted) && i.WellFormed()
    requires code' == code + ([i.Opcode() as byte] + Operands(c, i))
    ensures Matches(c, code', PushSpan(spans, span, |code|), |code|, instrs + [i], offs + [|code'|], emitted + [span])
  {
    LaidAppend(c, instrs, offs, code, i, code');
    PushSpanRight(offs, spans, emitted, span, |code'|);
  }

  class Chunk {
    const c: Codec
    var code: seq<byte>
    var spans: seq<SourceSpan>
    var lastOp: nat
    ghost var instrs: seq<Instr>
    ghost var offs: seq<nat>      // what `push_op` returned, then the end of the code
    ghost var emitted: seq<Span>

    ghost predicate Valid()
      reads this
    {
      c.Valid() && Matches(c, code, spans, lastOp, instrs, offs, emitted)
    }

    constructor (codec: Codec)
      requires codec.Valid()
      ensures Valid() && c == codec && instrs == [] && emitted == []
    {
      c := codec;
      code, spans, lastOp := [], [], 0;
      instrs, offs, emitted := [], [0], [];
    }

    method PushOp(op: Op, span: Span) returns (idx: nat)
      modifies this`lastOp, this`code, this`spans
      ensures idx == lastOp == |old(code)|
      ensures code == old(code) + [op as byte]
      ensures spans == PushSpan(old(spans), span, idx)
    {
      lastOp := |code|;
      code := code + [op];
      spans := PushSpan(spans, span, lastOp);
      idx := lastOp;
    }

    method PushUvarint(x: u64)
      modifies this`code
      ensures code == old(code) + c.encode(x)
    {
      code := code + c.encode(x);
    }

    method PushU16(x: nat)
      requires x < 65536
      modifies this`code
      ensures code == old(code) + U16(x)
    {
      code := code + [x % 256, x / 256];
    }

    method PushOperands(i: Instr)
      requires i.WellFormed()
      modifies this`code
      ensures code == old(code) + Operands(c, i)
    {
      match i
      case Plain(_) =>
      case WithArg(_, arg) => PushUvarint(arg);
      case Jump(_, offset) => PushU16(offset);
      case Coerce(kind) => code := code + [kind];
      case Capture(_, bp, packed, positions) =>
        PushUvarint(bp);
        PushUvarint(packed);
        var n := 0;
        ghost var head := code;
        assert head + [] == head;
        while n < |positions|
          invariant 0 <= n <= |positions|
          invariant code + EncodeAll(c, positions[n..]) == head + EncodeAll(c, positions)
        {
          ghost var before := code;
          PushUvarint(positions[n]);
          assert positions[n..][1..] == positions[n + 1..];
          assert code + EncodeAll(c, positions[n + 1..])
              == before + (c.encode(positions[n]) + EncodeAll(c, positions[n + 1..]));
          n := n + 1;
        }
        assert positions[n..] == [];
        assert code == head + EncodeAll(c, positions);
    }

    method PushInstr(i: Instr, span: Span) returns (idx: nat)
      requires i.WellFormed()
      modifies this`lastOp, this`code, this`spans
      ensures idx == lastOp == |old(code)|
      ensures code == old(code) + ([i.Opcode() as byte] + Operands(c, i))
      ensures spans == PushSpan(old(spans), span, idx)
    {
      idx := PushOp(i.Opcode(), span);
      PushOperands(i);
    }

    /** Emits one whole instruction: the opcode, its span, then its operands. */
    method Emit(i: Instr, span: Span) returns (idx: nat)
      requires Valid() && i.WellFormed()
      modifies this
      ensures Valid() && idx == |old(code)|
      ensures instrs == old(instrs) + [i] && emitted == old(emitted) + [span]
      ensures offs == old(offs) + [|code|] && offs[|old(instrs)|] == idx
      ensures old(code) <= code
    {
      idx := PushInstr(i, span);
      MatchesAppended(c, old(code), old(spans), old(lastOp), instrs, offs, emitted, i, span, code);
      instrs, offs, emitted := instrs + [i], offs + [|code|], emitted + [span];
    }

    /** Points the jump at `idx`, instruction `k`, at whatever is emitted next:
        its target is the end of the code exactly when the distance fits 16 bits. */
    method PatchJump(idx: nat, ghost k: nat)
      requires Valid() && k < |instrs| && instrs[k].Jump? && idx == offs[k]
      modifies this`code, this`instrs
      ensures Valid() && |code| == |old(code)| && idx + 3 <= |code|
      ensures k < |old(instrs)| && instrs == old(instrs)[k := Jump(old(instrs)[k].op, JumpOffset(|code|, idx))]
    {
      MatchesPatched(c, code, spans, lastOp, instrs, offs, emitted, k);
      var offset := JumpOffset(|code|, idx);
      code := Patched(code, idx, offset);
      instrs := instrs[k := Jump(instrs[k].op, offset)];
    }

    /** Counts the instructions by walking over them. */
    method OpCount() returns (count: nat)
      requires Valid()
      ensures count == |instrs|
    {
      if code == [] {
        AtBoundary(c, instrs, offs, code, 0);
        return 0;
      }
      var idx := 0;
      count := 0;
      while idx <= lastOp
        invariant 0 <= count <= |instrs| && idx == offs[count]
        decreases |instrs| - count
      {
        AtBoundary(c, instrs, offs, code, count);
        var opLen := OpLength(c, code, idx, instrs[count]);
        NextBoundary(c, instrs, offs, code, count, idx + opLen);
        idx := idx + opLen;
        count := count + 1;
      }
    }

    /** The boundaries `disassemble_chunk` visits, with what it shows there. */
    method DisassembleChunk() returns (visited: seq<(nat, Shown)>)
      requires Valid()
      ensures |visited| == |instrs| && Visited(instrs, offs, visited)
    {
      visited := DisassembleCode(c, code, instrs, offs);
    }

    /** The span of the instruction that contains the byte at `offset`. */
    method GetSpanAt(offset: nat, ghost k: nat) returns (span: Span)
      requires Valid() && Within(offs, k, offset)
      ensures k < |emitted| && span == emitted[k]
    {
      span := GetSpan(spans, offset);
    }
  }

  lemma JumpLength(c: Codec, instrs: seq<Instr>, offs: seq<nat>, code: seq<byte>, k: nat)
    requires Laid(c, instrs, offs, code) && k < |instrs| && instrs[k].Jump?
    ensures offs[k] + 3 <= |code|
  {
    JumpFits(c, instrs, offs, code, k);
  }

  lemma JumpFits(c: Codec, instrs: seq<Instr>, offs: seq<nat>, code: seq<byte>, k: nat)
    requires Laid(c, instrs, offs, code) && k < |instrs| && instrs[k].Jump?
    ensures offs[k + 1] == offs[k] + 3 <= |code|
    ensures code[offs[k]] == instrs[k].op && ArgType(instrs[k].op) == Fixed
  {
    assert InstrAt(c, code, instrs[k], offs[k], offs[k + 1]);
    EncodeHolds(c, code, offs[k], instrs[k]);
  }

  lemma JumpBytes(c: Codec, code: seq<byte>, op: Op, offset: nat, at: nat)
    requires ArgType(op) == Fixed && offset < 65536 && at + 3 <= |code|
    requires code[at] == op && code[at + 1] == offset % 256 && code[at + 2] == offset / 256
    ensures InstrAt(c, code, Jump(op, offset), at, at + 3)
  {
  }

  /** Rewriting the operand of a jump keeps every boundary. */
  lemma LaidPatch(c: Codec, instrs: seq<Instr>, offs: seq<nat>, code: seq<byte>, k: nat, offset: nat)
    requires Laid(c, instrs, offs, code) && k < |instrs| && instrs[k].Jump? && offset < 65536
    requires offs[k] + 3 <= |code|
    ensures Laid(c, instrs[k := Jump(instrs[k].op, offset)], offs, Patched(code, offs[k], offset))
  {
    var code' := Patched(code, offs[k], offset);
    var instrs' := instrs[k := Jump(instrs[k].op, offset)];
    JumpFits(c, instrs, offs, code, k);
    forall j | 0 <= j < |instrs'| ensures InstrAt(c, code', instrs'[j], offs[j], offs[j + 1]) {
      if j == k {
        JumpBytes(c, code', instrs[k].op, offset, offs[k]);
      } else {
        assert InstrAt(c, code, instrs[j], offs[j], offs[j + 1]);
        assert if j < k then offs[j + 1] <= offs[k] else offs[k + 1] <= offs[j];
        InstrAtFrame(c, code, code', instrs[j], offs[j], offs[j + 1]);
      }
    }
  }
}
