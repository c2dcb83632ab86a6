# qram_exploration circuit builders in Dafny

This project models the four circuit-building helpers of `utils.py` in the
qram_exploration repository. These helpers assemble quantum-RAM style circuits
from three kinds of register: an address (`base` or `control`), a memory of
equal-width blocks (`mem`), and an `output` (or `fan`) register.

- `one_hot_fan` turns an n-qubit address register into a one-hot fan of
  2^n qubits.
- `controlled_read` xors the memory block that a control qubit selects into
  an output register.
- `set_mem` writes a list of integers into the memory blocks, least
  significant bit first.
- `spread` flattens a list of registers into one list of qubits.

All three gates involved (X, CNOT, Toffoli) map basis states to basis
states. The model therefore gives a gate list its meaning on a classical bit
state, `seq<bool>`, indexed by qubit number (`Gates.Apply`). That is enough to
state what each helper computes on every basis input.

Modules:

- `Gates`: the gate datatype, target and control sets, and `Apply`.
- `Circuits`: register predicates, `Read`, and the class `Circuit`. The class
  stands for a quantum circuit: a set of declared qubits and a gate list that
  `X`, `Cnot` and `Ccx` extend in place. Each of these requires its operands
  to be declared and pairwise distinct, as the circuit framework does.
- `Bits`: binary numerals. `Binary` gives the digits of `bin(v)`, `Padded`
  pads them with leading zeros, and `LsbFirst` gives the least significant
  bit first. The module also has values, popcounts and powers of two.
- `Blocks`: block i of a memory, `mem[i*B .. i*B+B)`.
- `Fanout`, `ControlledReads`, `SetMem`, `Spread`: one module per helper.

Each helper that takes an optional circuit `qc` is a method with a
`Circuit?` parameter, with two outcomes:

- **`qc` is null:** the method builds a fresh `Circuit` over the registers
  and returns `Some(gates)`. The returned instruction is its gate list.
- **`qc` is given:** the method appends the same gates to `qc` and returns
  `None`.

In both cases the gates are exactly those of a specification function
(`OneHotFanGates`, `ReadGates`, `SetMemGates`). The lemmas state what those
gates do.

## Model

| member | source | states |
|---|---|---|
| Circuits.Circuit.constructor | utils.py:18 | a fresh circuit over the given registers declares exactly their qubits and holds no gate (as also at utils.py:40 and 67) |
| Circuits.Circuit.X | utils.py:20 | appends X(t) to the circuit's gates, keeps the declared qubits, requires t declared |
| Circuits.Circuit.Cnot | utils.py:22-31 | appends CX(c, t), requires both declared and c != t |
| Circuits.Circuit.Ccx | utils.py:28 | appends CCX(c1, c2, t), requires all three declared and pairwise different |
| Fanout.OneHotFan | utils.py:13-33 | with no circuit, returns the gate list of a fresh circuit; with a circuit, appends that same list to it, returns nothing and declares no new qubit |
| Fanout.Encode | utils.py:20-31 | the emitted gates are the first base bit done by hand, then one doubling layer for each base bit 1..n-1, in order |
| Fanout.First | utils.py:20-23 | emits X(fan[0]), CX(base[0], fan[1]), CX(fan[1], fan[0]) |
| Fanout.Double | utils.py:25-31 | the doubling step for base bit i appends the 2^i write gates, then the 2^i correct gates |
| Fanout.Write | utils.py:26-28 | the write loop appends CCX(base[i], fan[j], fan[2^i + j]) for j = 0 .. 2^i - 1 in order |
| Fanout.Correct | utils.py:29-31 | the correct loop appends CX(fan[2^i + j], fan[j]) for j = 0 .. 2^i - 1 in order |
| Fanout.FirstGates | utils.py:20-23 | the three gates for the first base bit, as written: X(fan[0]), CX(base[0], fan[1]), CX(fan[1], fan[0]) |
| Fanout.WriteLayer | utils.py:26-28 | the first n gates of the write loop, as written: CCX(b, fan[j], fan[half + j]) for j < n, exactly n of them |
| Fanout.CorrectLayer | utils.py:29-31 | the first n gates of the correct loop, as written: CX(fan[half + j], fan[j]) for j < n, exactly n of them |
| Fanout.Layer | utils.py:25-31 | one doubling step for base bit i, as written: the whole write loop, then the whole correct loop, with half = 2^i |
| Fanout.FanGates | utils.py:20-31 | the gate list the first k base bits emit, as written: the three hand-made gates for k = 1, then one doubling layer per further bit |
| Fanout.OneHotFanGates | utils.py:20-31 | the whole gate list of one_hot_fan: FanGates over every base bit |
| Fanout.FanGatesSnoc | utils.py:25 | the gates for k+1 base bits are those for k bits followed by layer k (the outer loop's step) |
| Fanout.FanGateCount | utils.py:20-31 | the first k base bits cost 2^(k+1) - 1 gates, so an n-bit base costs 2^(n+1) - 1 |
| Fanout.FanGatesFit | utils.py:20-31 | every gate fits any state wide enough to hold base and fan |
| Fanout.FanOperands | utils.py:20-31 | every operand of every gate is one of fan[0..2^k) or base[0..k): no gate touches a qubit outside the two registers |
| Fanout.LayerShape | utils.py:26-31 | gate m of layer i is CCX(base[i], fan[m], fan[2^i + m]) for m < 2^i, else CX(fan[m], fan[m - 2^i]) |
| Fanout.WriteLayerAt | utils.py:28 | write gate m is CCX(b, fan[m], fan[half + m]) |
| Fanout.CorrectLayerAt | utils.py:31 | correct gate m is CX(fan[half + m], fan[m]) |
| Fanout.FanTargets | utils.py:20-31 | the first k base bits never target a qubit outside fan[0..2^k); so, for registers that satisfy FanRegisters, base and fan[2^k..) are never written |
| Fanout.FanReads | utils.py:20-31 | the first k base bits use as controls only base[0..k) and fan[0..2^k) |
| Fanout.FirstEffect | utils.py:20-23 | from a clear fan, the first three gates leave fan[0] = NOT base[0] and fan[1] = base[0], and change nothing else |
| Fanout.FirstPrefixEffect | utils.py:20-23 | after the first base bit, fan[0..2) is one-hot at the value of base[0] |
| Fanout.WriteEffect | utils.py:26-28 | the write loop sets fan[half + j] ^= b AND fan[j] and changes nothing outside fan[half..2 half) |
| Fanout.CorrectEffect | utils.py:29-31 | the correct loop sets fan[j] ^= fan[half + j] and changes nothing outside fan[0..half) |
| Fanout.LayerEffect | utils.py:25-31 | a doubling step takes a fan one-hot at v on [0, p), clear on [p, 2p), to one-hot at v + p*b on [0, 2p), changing nothing else |
| Fanout.LayerKeeps | utils.py:25-31 | a doubling step changes no qubit outside fan[0..2p) |
| Fanout.LayerOneHot | utils.py:25-31 | a doubling step moves the hot position from v to v + p exactly when the base bit is set |
| Fanout.DoubledOneHot | utils.py:28-31 | the bit arithmetic of write-then-correct on a one-hot half and a clear half gives a one-hot double |
| Fanout.FanPrefixEffect | utils.py:20-31 | from a clear fan, after the first k base bits fan[0..2^k) is one-hot at the value of base[0..k), base[0] least significant |
| Fanout.FanPrefixStep | utils.py:25-31 | the step from k-1 to k base bits keeps that one-hot invariant |
| Fanout.FanUpperClear | utils.py:25-31 | before step i, fan[2^i..2^(i+1)) is still clear and base[i] unchanged |
| Fanout.OneHotFanEncodes | utils.py:13-33 | from a clear fan, afterwards fan[j] is set iff j equals the value of base, and that value is below the fan size; every qubit outside fan (base included) is unchanged |
| Fanout.OneHotFanKeeps | utils.py:20-31 | fan qubits at 2^n and beyond stay clear and no qubit outside fan changes |
| Fanout.RegisterValueSnoc | utils.py:25-28 | base bit i weighs 2^i in the encoded address |
| ControlledReads.ControlledRead | utils.py:35-50 | with no circuit, returns the gate list of a fresh circuit; with a circuit, appends that same list to it and returns nothing |
| ControlledReads.EmitRead | utils.py:43-48 | the loop over control qubits appends the read gates of block 0, then block 1, and so on |
| ControlledReads.EmitControl | utils.py:45-48 | one pass of the outer loop appends the B gates reading block i under control[i] |
| ControlledReads.EmitBlock | utils.py:45-48 | the inner loop appends CCX(control[i], mem[i*B + j], output[j]) for j = 0 .. B-1 |
| ControlledReads.ReadBlock | utils.py:45-48 | the n gates the inner loop emits for one control qubit, CCX(c, cells[j], output[j]) in order of j; exactly n of them |
| ControlledReads.ReadGates | utils.py:43-48 | the gate list the first m control qubits emit, as written: block 0's read, then block 1's, and so on |
| ControlledReads.ReadGatesSnoc | utils.py:43 | the gates for m+1 controls are those for m controls followed by block m's read |
| ControlledReads.ReadGatesCount | utils.py:43-48 | len(control) * B gates are emitted |
| ControlledReads.ReadGatesLength | utils.py:43-48 | the first m controls emit Start(m, B) = m*B gates |
| ControlledReads.ReadBlockAt | utils.py:48 | gate j of a block read is CCX(c, cells[j], output[j]) |
| ControlledReads.ReadGateAtStart | utils.py:46-48 | gate i*B + j is the gate for offset j of block i |
| ControlledReads.ReadGatesStable | utils.py:43-48 | later blocks never change a gate already emitted |
| ControlledReads.ReadGatesLast | utils.py:46-48 | block i's gates sit at the end of the first i+1 blocks |
| ControlledReads.ReadGateAt | utils.py:43-48 | control-major order: gate number i*B + j is CCX(control[i], mem[i*B + j], output[j]) |
| ControlledReads.BlockTargets | utils.py:48 | a block read writes only output[0..B) |
| ControlledReads.ReadTargets | utils.py:43-48 | the whole read writes only output[0..B) |
| ControlledReads.ReadKeepsControlAndMem | utils.py:43-48 | no control or memory qubit is ever a target |
| ControlledReads.BlockApart | utils.py:46-48 | control[i] is not an output qubit and block i shares no qubit with output |
| ControlledReads.BlockEffect | utils.py:45-48 | a block read xors control AND mem[i*B + j] into output[j] and changes nothing else |
| ControlledReads.ReadEffect | utils.py:43-48 | output[j] ends as its old value xor the parity of control[i] AND mem[i*B + j] over all i; every other qubit is unchanged |
| ControlledReads.SelectedOneHot | utils.py:43-48 | with exactly control[k] set, that parity is bit j of block k |
| ControlledReads.SelectedNone | utils.py:43-48 | with no control set, that parity is zero |
| ControlledReads.ReadSelectsBlock | utils.py:43-48 | with exactly control[k] set, output[j] ends as its old value xor bit j of block k |
| ControlledReads.ReadCopiesBlock | utils.py:35-50 | with exactly control[k] set and a clear output, output[0..B) ends holding block k of mem |
| ControlledReads.ReadWithoutControl | utils.py:35-50 | with no control set, the read leaves the whole state unchanged |
| Spread.Spread | utils.py:52-60 | the result is the registers laid end to end, in order, as long as all of them together |
| Spread.FlattenLength | utils.py:55-60 | the length of the result is the sum of the register sizes |
| Spread.FlattenConcat | utils.py:56-58 | spreading a concatenation of register lists concatenates the results |
| Spread.FlattenAt | utils.py:56-58 | bit i of register k sits at position (sum of the sizes of registers 0..k-1) + i |
| Spread.FlattenFrom | utils.py:56-58 | every bit of the result is a bit of some register |
| SetMem.SetMem | utils.py:62-80 | with no circuit, returns the gate list of a fresh circuit over mem; with a circuit, appends that same list to it and returns nothing |
| SetMem.EmitSetMem | utils.py:69-78 | the loop over values appends the gates of value 0, then value 1, and so on |
| SetMem.EmitValue | utils.py:69-78 | one pass appends an X for each 1 bit of the word of values[i], written from mem[i*B] |
| SetMem.WordOf | utils.py:70-76 | the bits computed from bin(value), zero-padded to block_size and reversed, are the value least significant bit first |
| SetMem.EmitWord | utils.py:76-78 | the inner loop appends X(mem[i*B + j]) exactly for the 1 bits j, in order |
| SetMem.Words | utils.py:69-76 | the bit list set_mem computes for each value, one word per value |
| SetMem.WordGates | utils.py:76-78 | the gates the inner loop emits for one word written from mem[at], as written: an X for each 1 bit, in order |
| SetMem.SetMemGates | utils.py:69-78 | the gate list for the first m values, as written: word 0's gates from block 0, then word 1's from block 1, and so on |
| SetMem.SetMemGatesSnoc | utils.py:69 | the gates for m+1 values are those for m values followed by value m's |
| SetMem.WordsAt | utils.py:69-76 | the word for values[i] is its least-significant-first bit list |
| SetMem.WordGatesCount | utils.py:76-78 | one word costs an X per 1 bit |
| SetMem.SetMemGatesOnes | utils.py:69-78 | the first m words cost an X per 1 bit among them |
| SetMem.OnesUpToPopcounts | utils.py:69-76 | the 1 bits of the words are the 1 digits of the values |
| SetMem.SetMemGatesCount | utils.py:69-78 | the gate count is the total popcount of the values |
| SetMem.WordGatesTargets | utils.py:77-78 | every gate of a word is an X on a memory qubit |
| SetMem.SetMemTargets | utils.py:69-78 | only X gates are emitted, each on a memory qubit |
| SetMem.FittingLayout | utils.py:70-78 | values below 2^B with B >= 1 give words of exactly B bits, each inside its block |
| SetMem.WordEffect | utils.py:76-78 | one word flips mem[at + j] exactly when bit j is 1 and changes nothing else |
| SetMem.SetMemEffect | utils.py:69-78 | bit j of block i, for i < m, flips exactly when bit j of word i is 1; qubits outside the first m blocks are unchanged |
| SetMem.SetMemKeeps | utils.py:69-78 | the first m words change nothing outside the first m blocks |
| SetMem.SetMemFlips | utils.py:69-78 | the first m words flip bit j of block i exactly when bit j of word i is 1 |
| SetMem.SetMemWrites | utils.py:62-80 | for fitting values, bit j of block i flips iff bit j of values[i] is 1; nothing outside the used blocks changes |
| SetMem.WordsLand | utils.py:69-78 | from a clear memory, block i ends up holding word i |
| SetMem.SetMemDecodes | utils.py:62-80 | from a clear memory, block i reads back as values[i] least significant bit first and decodes to values[i] |
| SetMem.WordSpills | utils.py:72-78 | a word longer than B whose top bit is 1 puts an X on mem[i*B + length - 1], past block i |
| SetMem.SetMemSpills | utils.py:72-78 | a value of 2^B or more is not truncated: its top bit lands on mem[i*B + len(bin(value)[2:]) - 1], an address inside mem and past block i |
| Bits.Binary | utils.py:70 | the digits of bin(value)[2:], most significant first; at least one digit, and the first is 1 unless the value is 0 |
| Bits.Padded | utils.py:72-73 | those digits after the zero padding: block_size digits when they are fewer, all of them otherwise (a negative diff pads nothing), the added digits all 0 |
| Bits.BinaryValue | utils.py:70 | the digits of bin(v), read back to front, denote v |
| Bits.LsbFirstAsWritten | utils.py:70-76 | padding bin(v) to block_size digits and reversing it gives v least significant bit first |
| Bits.PaddedSnoc | utils.py:72-73 | padding v to width is padding v/2 to one digit less, then v's last digit |
| Bits.LsbFirstRoundTrip | utils.py:70-76 | a value below 2^B gives exactly B bits that decode back to it |
| Bits.LsbFirstOverflow | utils.py:72-73 | a value of 2^B or more gives more than B bits, the last one set: padding never truncates |
| Bits.LsbFirstZero | utils.py:72-73 | zero in B >= 1 bits is B zero bits |
| Bits.LsbFirstBit | utils.py:76 | bit j written for v is bit j of v |
| Bits.OnesLsbFirst | utils.py:70-77 | the 1 bits written for v are its popcount, whatever the padding |
| Blocks.StartValue | utils.py:46 | block i starts at i * B |
| Blocks.BlockSlice | utils.py:46 | block i is mem[i*B .. i*B + B) |

## Left out

- `simulate` (`utils.py:4-11`) runs a circuit on a simulator backend and counts the measured shots. It is I/O and sampling, not circuit construction, so it is not modelled.
- Amplitudes, phases and superpositions are not modelled. The gates are X, CNOT and Toffoli, which permute basis states, so every gate-level claim is stated on basis states (`seq<bool>`).
- `to_instruction()` is modelled as the gate list of the fresh circuit. The instruction's name ("one_hot", "c-read", "set-mem") and the relabelling of its qubits to 0..k-1 are not modelled.
- The commented-out gate in `controlled_read` (`utils.py:47`) is not code and is not modelled.
- Errors raised mid-construction are not modelled: an `IndexError` from a register shorter than the loops need, or a `CircuitError` from a repeated operand within one gate. The methods require the registers to be long enough and the operands of each gate to differ, so no partial gate list after a failure is modelled.
- Fanout.OneHotFan: requires `fan` to hold distinct qubits, none of them in `base`. The framework only rejects a qubit repeated within one gate. Two separate quantum registers always satisfy this requirement; hand-made qubit lists passed together with `qc` need not.
- ControlledReads.ControlledRead: requires `control`, `mem` and `output` to be pairwise disjoint. The framework only rejects a qubit repeated within one Toffoli.
- ControlledReads.ReadEffect, ControlledReads.ReadSelectsBlock, ControlledReads.ReadCopiesBlock and ControlledReads.ReadWithoutControl: also assume `output` holds distinct qubits.
- SetMem.SetMemWrites and SetMem.SetMemDecodes: assume `block_size >= 1` and distinct memory qubits.
  - With `block_size == 0`, the code still writes the digits of each value, starting at `mem[0]`. All blocks then overlap and the "block i holds value i" claim has no meaning. SetMem.SetMemSpills still describes where such digits land.
  - With repeated memory qubits, two X gates on the same qubit would cancel.
- SetMem.SetMem: values are natural numbers. A negative value makes `bin()` produce a leading minus sign, and `int('b')` then fails, so negative values are outside the model.
- `block_size` is a natural number. The source also accepts a negative one. Then `controlled_read` emits nothing, and `set_mem` may compute a negative address `i*block_size + j`, which Python counts from the end of `mem`.
- When `qc` is given, every qubit of `fan`, `mem` and `output` must be declared in it. The source only touches `fan[0..2^n)`, `mem[0..len(control)*block_size)`, `output[0..block_size)` and the addresses of 1 bits, so the model asks for more than it uses.
- `spread` is written for qubit lists: the model is generic in the element type. Python's acceptance of any iterable, such as a register, is modelled as a sequence.
