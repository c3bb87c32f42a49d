/** The linear sweep over EVM bytecode that collects the opcodes in use. */
module Bytecode {

  type Byte = x: nat | x < 256

  /** How many bytes of immediate data follow an opcode: PUSH1 to PUSH32 carry 1 to 32. */
  function DataLength(opcode: Byte): nat {
    if 0x60 <= opcode <= 0x7F then opcode - 0x5F else 0
  }

  /** The instruction starts at or after `i`; each follows the data of the one before. */
  function Starts(code: seq<Byte>, i: nat): set<nat>
    decreases |code| - i
  {
    if i >= |code| then {} else {i} + Starts(code, i + 1 + DataLength(code[i]))
  }

  function OpcodesAt(code: seq<Byte>, starts: set<nat>): set<Byte> {
    set i | i in starts && i < |code| :: code[i]
  }

  function NameOf(names: map<Byte, string>, fallback: Byte -> string, opcode: Byte): string {
    if opcode in names then names[opcode] else fallback(opcode)
  }

  /** disassemble_opcode_names, on the decoded bytes and without the final sort. The name table is an
      arbitrary parameter. */
  method OpcodeNames(raw: seq<Byte>, names: map<Byte, string>, fallback: Byte -> string) returns (used: set<string>)
    ensures used == set opcode | opcode in OpcodesAt(raw, Starts(raw, 0)) :: NameOf(names, fallback, opcode)
  {
    used := {};
    var index := 0;
    ghost var seen: set<nat> := {};
    while index < |raw|
      invariant seen + Starts(raw, index) == Starts(raw, 0)
      invariant forall i :: i in seen ==> i < |raw|
      invariant used == set opcode | opcode in OpcodesAt(raw, seen) :: NameOf(names, fallback, opcode)
    {
      var opcode := raw[index];
      used := used + {NameOf(names, fallback, opcode)};
      ghost var before := seen;
      seen := seen + {index};
      assert OpcodesAt(raw, seen) == OpcodesAt(raw, before) + {opcode};
      index := index + 1;
      if 0x60 <= opcode <= 0x7F {
        index := index + (opcode - 0x5F);
      }
    }
    assert seen == Starts(raw, 0);
  }

  // ---------------------------------------------------------------- assembled code

  datatype Instruction = Instruction(opcode: Byte, data: seq<Byte>)

  predicate WellFormed(instructions: seq<Instruction>) {
    forall i :: 0 <= i < |instructions| ==> |instructions[i].data| == DataLength(instructions[i].opcode)
  }

  function Assemble(instructions: seq<Instruction>): seq<Byte> {
    if instructions == [] then []
    else [instructions[0].opcode] + instructions[0].data + Assemble(instructions[1..])
  }

  function Opcodes(instructions: seq<Instruction>): set<Byte> {
    set i | 0 <= i < |instructions| :: instructions[i].opcode
  }

  /** Where each assembled instruction lies, from offset `at` on. */
  function Offsets(instructions: seq<Instruction>, at: nat): set<nat> {
    if instructions == [] then {}
    else {at} + Offsets(instructions[1..], at + 1 + |instructions[0].data|)
  }

  function Shifted(starts: set<nat>, distance: nat): set<nat> {
    set j | j in starts :: j + distance
  }

  lemma {:induction false} StartsSuffix(a: seq<Byte>, b: seq<Byte>, i: nat)
    requires i >= |a|
    ensures Starts(a + b, i) == Shifted(Starts(b, i - |a|), |a|)
    decreases |a| + |b| - i
  {
    if i < |a + b| {
      var next := i + 1 + DataLength((a + b)[i]);
      assert (a + b)[i] == b[i - |a|];
      StartsSuffix(a, b, next);
      var there := Starts(b, next - |a|);
      assert Starts(b, i - |a|) == {i - |a|} + there;
      assert Shifted({i - |a|} + there, |a|) == Shifted({i - |a|}, |a|) + Shifted(there, |a|);
      assert Shifted({i - |a|}, |a|) == {i};
    }
  }

  lemma {:induction false} AssembledStarts(prefix: seq<Byte>, instructions: seq<Instruction>, tail: seq<Byte>)
    requires WellFormed(instructions)
    ensures var code := prefix + Assemble(instructions) + tail;
            Starts(code, |prefix|)
            == Offsets(instructions, |prefix|) + Starts(code, |prefix| + |Assemble(instructions)|)
    decreases |instructions|
  {
    hide DataLength;
    var code := prefix + Assemble(instructions) + tail;
    if instructions != [] {
      var first := [instructions[0].opcode] + instructions[0].data;
      assert code == (prefix + first) + Assemble(instructions[1..]) + tail;
      AssembledStarts(prefix + first, instructions[1..], tail);
      assert code[|prefix|] == instructions[0].opcode;
      assert Starts(code, |prefix|) == {|prefix|} + Starts(code, |prefix| + |first|);
    }
  }

  lemma {:induction false} OffsetOpcodes(prefix: seq<Byte>, instructions: seq<Instruction>, tail: seq<Byte>)
    ensures OpcodesAt(prefix + Assemble(instructions) + tail, Offsets(instructions, |prefix|))
         == Opcodes(instructions)
    decreases |instructions|
  {
    var code := prefix + Assemble(instructions) + tail;
    if instructions != [] {
      var first := [instructions[0].opcode] + instructions[0].data;
      assert code == (prefix + first) + Assemble(instructions[1..]) + tail;
      OffsetOpcodes(prefix + first, instructions[1..], tail);
      var rest := Offsets(instructions[1..], |prefix| + |first|);
      assert Offsets(instructions, |prefix|) == {|prefix|} + rest;
      assert code[|prefix|] == instructions[0].opcode;
      assert OpcodesAt(code, {|prefix|} + rest) == {instructions[0].opcode} + OpcodesAt(code, rest);
      var ops, restOps := Opcodes(instructions), Opcodes(instructions[1..]);
      forall x | x in restOps ensures x in ops {
        var i :| 0 <= i < |instructions[1..]| && instructions[1..][i].opcode == x;
        assert instructions[i + 1].opcode == x;
      }
      forall x | x in ops ensures x in {instructions[0].opcode} + restOps {
        var i :| 0 <= i < |instructions| && instructions[i].opcode == x;
        if i > 0 {
          assert instructions[1..][i - 1].opcode == x;
        }
      }
    }
  }

  /** Scanning assembled code finds exactly the opcodes of its instructions, whatever bytes the PUSH data holds. */
  lemma ScanFindsExactlyInstructions(instructions: seq<Instruction>)
    requires WellFormed(instructions)
    ensures var code := Assemble(instructions);
            OpcodesAt(code, Starts(code, 0)) == Opcodes(instructions)
  {
    hide Assemble, OpcodesAt, Offsets;
    var none: seq<Byte> := [];
    assert none + Assemble(instructions) + none == Assemble(instructions);
    AssembledStarts(none, instructions, none);
    OffsetOpcodes(none, instructions, none);
    assert Starts(Assemble(instructions), 0) == Offsets(instructions, 0);
  }

  /** A scan of code cut at an instruction boundary is the union of the two scans; the second part may be
      anything, such as metadata or a truncated PUSH. */
  lemma ScanSplitsAtBoundary(instructions: seq<Instruction>, tail: seq<Byte>)
    requires WellFormed(instructions)
    ensures var code := Assemble(instructions);
            OpcodesAt(code + tail, Starts(code + tail, 0))
            == OpcodesAt(code, Starts(code, 0)) + OpcodesAt(tail, Starts(tail, 0))
  {
    hide Assemble, Offsets, Starts;
    var code, none: seq<Byte> := Assemble(instructions), [];
    assert none + code + tail == code + tail;
    AssembledStarts(none, instructions, tail);
    OffsetOpcodes(none, instructions, tail);
    StartsSuffix(code, tail, |code|);
    ScanFindsExactlyInstructions(instructions);
    var shifted := Shifted(Starts(tail, 0), |code|);
    ShiftedOpcodes(code, tail, Starts(tail, 0));
    assert OpcodesAt(code + tail, Offsets(instructions, 0) + shifted)
        == OpcodesAt(code + tail, Offsets(instructions, 0)) + OpcodesAt(code + tail, shifted);
  }

  lemma ShiftedOpcodes(a: seq<Byte>, b: seq<Byte>, starts: set<nat>)
    ensures OpcodesAt(a + b, Shifted(starts, |a|)) == OpcodesAt(b, starts)
  {
    var shifted := Shifted(starts, |a|);
    forall x | x in OpcodesAt(b, starts) ensures x in OpcodesAt(a + b, shifted) {
      var j :| j in starts && j < |b| && b[j] == x;
      assert j + |a| in shifted && (a + b)[j + |a|] == x;
    }
    forall x | x in OpcodesAt(a + b, shifted) ensures x in OpcodesAt(b, starts) {
      var k :| k in shifted && k < |a + b| && (a + b)[k] == x;
      assert k - |a| in starts && b[k - |a|] == x;
    }
  }

  /** PUSHk, byte 0x5F + k, takes exactly k bytes of data with it, whatever they are; any other opcode none. */
  lemma PushTakesItsData(k: nat, data: seq<Byte>, rest: seq<Byte>, plain: Byte)
    requires 1 <= k <= 32 && |data| == k
    requires plain < 0x60 || plain > 0x7F
    ensures Starts([(0x5F + k) as Byte] + data + rest, 0) == {0} + Shifted(Starts(rest, 0), 1 + k)
    ensures Starts([plain] + rest, 0) == {0} + Shifted(Starts(rest, 0), 1)
  {
    var push := [(0x5F + k) as Byte] + data;
    StartsSuffix(push, rest, 1 + k);
    StartsSuffix([plain], rest, 1);
  }
}
