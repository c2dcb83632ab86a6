/**
 * controlled_read: for every control qubit i and every offset j in the
 * block, a CCX with controls control[i] and mem[i * B + j] and target
 * output[j]. With a one-hot control the selected memory block is xored
 * into the output register.
 */
module ControlledReads {
  import opened Gates
  import opened Circuits
  import opened Blocks

  /**
   * Registers whose indexing controlled_read survives: memory holds
   * |control| blocks of B qubits (Start(|control|, B) is |control| * B,
   * see StartValue) and output one block when any block is read.
   */
  predicate ReadShape(control: seq<nat>, mem: seq<nat>, B: nat, output: seq<nat>) {
    Start(|control|, B) <= |mem| && (|control| == 0 || B <= |output|)
  }

  /**
   * Registers of that shape whose gates are accepted: no register shares a
   * qubit with another, so the three operands of every CCX differ.
   */
  predicate ReadOperands(control: seq<nat>, mem: seq<nat>, B: nat, output: seq<nat>) {
    ReadShape(control, mem, B, output) &&
    Disjoint(control, mem) && Disjoint(control, output) && Disjoint(mem, output)
  }

  /** Those registers with an output of distinct qubits, so each output bit is one qubit of the state. */
  predicate ReadRegisters(control: seq<nat>, mem: seq<nat>, B: nat, output: seq<nat>) {
    ReadOperands(control, mem, B, output) && Distinct(output)
  }

  /** The first n gates of a block read: output[j] ^= c AND cells[j], for j < n. */
  function ReadBlock(c: nat, cells: seq<nat>, output: seq<nat>, n: nat): (gs: seq<Gate>)
    requires n <= |cells| && n <= |output|
    ensures |gs| == n
    decreases n
  {
    if n == 0 then [] else ReadBlock(c, cells, output, n - 1) + [CCX(c, cells[n - 1], output[n - 1])]
  }

  /** The gates for the first m control qubits, block after block. */
  function ReadGates(control: seq<nat>, mem: seq<nat>, B: nat, output: seq<nat>, m: nat): (gs: seq<Gate>)
    requires ReadShape(control, mem, B, output) && m <= |control|
    decreases m
  {
    if m == 0 then []
    else
      ReadGates(control, mem, B, output, m - 1) + ReadBlock(control[m - 1], Block(mem, B, |control|, m - 1), output, B)
  }

  /** Reading under control[m] appends block m's gates to those of the first m controls. */
  lemma ReadGatesSnoc(control: seq<nat>, mem: seq<nat>, B: nat, output: seq<nat>, m: nat)
    requires ReadShape(control, mem, B, output) && m < |control|
    ensures ReadGates(control, mem, B, output, m + 1) ==
      ReadGates(control, mem, B, output, m) + ReadBlock(control[m], Block(mem, B, |control|, m), output, B)
  {
  }

  /** controlled_read(control, mem, B, output, qc): appends to qc, or returns the gates of a fresh circuit over the three registers. */
  method ControlledRead(control: seq<nat>, mem: seq<nat>, B: nat, output: seq<nat>, qc: Circuit?)
    returns (instruction: Option<seq<Gate>>)
    requires ReadOperands(control, mem, B, output)
    requires qc != null ==> qc.Valid() && Within(control, qc.qubits) && Within(mem, qc.qubits) && Within(output, qc.qubits)
    modifies qc
    ensures qc == null ==> instruction == Some(ReadGates(control, mem, B, output, |control|))
    ensures qc != null ==> instruction == None && qc.Valid() && qc.qubits == old(qc.qubits)
    ensures qc != null ==> qc.gates == old(qc.gates) + ReadGates(control, mem, B, output, |control|)
  {
    if qc == null {
      var circ := new Circuit([control, mem, output]);
      assert [control, mem, output][0] == control && [control, mem, output][1] == mem && [control, mem, output][2] == output;
      EmitRead(circ, control, mem, B, output);
      assert circ.gates == ReadGates(control, mem, B, output, |control|);
      instruction := Some(circ.gates);
    } else {
      EmitRead(qc, control, mem, B, output);
      instruction := None;
    }
  }

  /** The loop over the control qubits. */
  method EmitRead(circ: Circuit, control: seq<nat>, mem: seq<nat>, B: nat, output: seq<nat>)
    requires ReadOperands(control, mem, B, output)
    requires circ.Valid() && Within(control, circ.qubits) && Within(mem, circ.qubits) && Within(output, circ.qubits)
    modifies circ
    ensures circ.Valid() && circ.qubits == old(circ.qubits)
    ensures circ.gates == old(circ.gates) + ReadGates(control, mem, B, output, |control|)
  {
    for i := 0 to |control|
      invariant circ.Valid() && circ.qubits == old(circ.qubits)
      invariant circ.gates == old(circ.gates) + ReadGates(control, mem, B, output, i)
    {
      EmitControl(circ, control, mem, B, output, i);
      ReadGatesSnoc(control, mem, B, output, i);
    }
  }

  /** One pass of that loop: block i, read under control[i]. */
  method EmitControl(circ: Circuit, control: seq<nat>, mem: seq<nat>, B: nat, output: seq<nat>, i: nat)
    requires ReadOperands(control, mem, B, output) && i < |control|
    requires circ.Valid() && Within(control, circ.qubits) && Within(mem, circ.qubits) && Within(output, circ.qubits)
    modifies circ
    ensures circ.Valid() && circ.qubits == old(circ.qubits)
    ensures circ.gates == old(circ.gates) + ReadBlock(control[i], Block(mem, B, |control|, i), output, B)
  {
    assert Outside(control[i], mem, 0, |mem|) && Outside(control[i], output, 0, |output|);
    EmitBlock(circ, control[i], mem, B, |control|, i, output);
  }

  /** The loop over the offsets of block i: the gate for offset j reads mem[i * B + j]. */
  method EmitBlock(circ: Circuit, c: nat, mem: seq<nat>, B: nat, n: nat, i: nat, output: seq<nat>)
    requires Start(n, B) <= |mem| && i < n && B <= |output|
    requires Outside(c, mem, 0, |mem|) && Outside(c, output, 0, |output|) && Disjoint(mem, output)
    requires circ.Valid() && c in circ.qubits && Within(mem, circ.qubits) && Within(output, circ.qubits)
    modifies circ
    ensures circ.Valid() && circ.qubits == old(circ.qubits)
    ensures circ.gates == old(circ.gates) + ReadBlock(c, Block(mem, B, n, i), output, B)
  {
    StartValue(i, B);
    BlockInMem(n, B, |mem|, i);
    for j := 0 to B
      invariant circ.Valid() && circ.qubits == old(circ.qubits)
      invariant circ.gates == old(circ.gates) + ReadBlock(c, Block(mem, B, n, i), output, j)
    {
      var loc := i * B + j;
      assert mem[loc] == Block(mem, B, n, i)[j];
      circ.Ccx(c, mem[loc], output[j]);
    }
  }

  /** controlled_read emits B gates per control qubit. */
  lemma ReadGatesCount(control: seq<nat>, mem: seq<nat>, B: nat, output: seq<nat>, m: nat)
    requires ReadShape(control, mem, B, output) && m <= |control|
    ensures |ReadGates(control, mem, B, output, m)| == m * B
    decreases m
  {
    ReadGatesLength(control, mem, B, output, m);
    StartValue(m, B);
  }

  /** Gate j of a block read is CCX(c, cells[j], output[j]). */
  lemma {:induction false} ReadBlockAt(c: nat, cells: seq<nat>, output: seq<nat>, n: nat, j: nat)
    requires j < n <= |cells| && n <= |output|
    ensures ReadBlock(c, cells, output, n)[j] == CCX(c, cells[j], output[j])
    decreases n
  {
    if j < n - 1 {
      ReadBlockAt(c, cells, output, n - 1, j);
    }
  }

  /** The first m blocks hold Start(m, B) gates. */
  lemma {:induction false} ReadGatesLength(control: seq<nat>, mem: seq<nat>, B: nat, output: seq<nat>, m: nat)
    requires ReadShape(control, mem, B, output) && m <= |control|
    ensures |ReadGates(control, mem, B, output, m)| == Start(m, B)
    decreases m
  {
    if m > 0 {
      ReadGatesLength(control, mem, B, output, m - 1);
    }
  }

  /** Gate Start(i, B) + j is the gate for offset j of block i. */
  lemma ReadGateAtStart(control: seq<nat>, mem: seq<nat>, B: nat, output: seq<nat>, m: nat, i: nat, j: nat)
    requires ReadShape(control, mem, B, output) && m <= |control| && i < m && j < B
    ensures Start(i, B) + j < |ReadGates(control, mem, B, output, m)|
    ensures ReadGates(control, mem, B, output, m)[Start(i, B) + j] == CCX(control[i], Block(mem, B, |control|, i)[j], output[j])
  {
    ReadGatesLast(control, mem, B, output, i, j);
    ReadGatesStable(control, mem, B, output, i + 1, m, Start(i, B) + j);
  }

  /** Adding blocks never changes a gate already emitted. */
  lemma {:induction false} ReadGatesStable(control: seq<nat>, mem: seq<nat>, B: nat, output: seq<nat>, k: nat, m: nat, n: nat)
    requires ReadShape(control, mem, B, output) && k <= m <= |control|
    requires n < |ReadGates(control, mem, B, output, k)|
    ensures n < |ReadGates(control, mem, B, output, m)|
    ensures ReadGates(control, mem, B, output, m)[n] == ReadGates(control, mem, B, output, k)[n]
    decreases m
  {
    if k < m {
      ReadGatesStable(control, mem, B, output, k, m - 1, n);
    }
  }

  /** Offset j of block i is gate Start(i, B) + j once block i is added. */
  lemma ReadGatesLast(control: seq<nat>, mem: seq<nat>, B: nat, output: seq<nat>, i: nat, j: nat)
    requires ReadShape(control, mem, B, output) && i < |control| && j < B
    ensures Start(i, B) + j < |ReadGates(control, mem, B, output, i + 1)|
    ensures ReadGates(control, mem, B, output, i + 1)[Start(i, B) + j] ==
              CCX(control[i], Block(mem, B, |control|, i)[j], output[j])
  {
    ReadGatesLength(control, mem, B, output, i);
    ReadBlockAt(control[i], Block(mem, B, |control|, i), output, B, j);
  }

  /**
   * The gates are ordered control-major: gate i * B + j has controls
   * control[i] and mem[i * B + j] and target output[j].
   */
  lemma ReadGateAt(control: seq<nat>, mem: seq<nat>, B: nat, output: seq<nat>, m: nat, i: nat, j: nat)
    requires ReadShape(control, mem, B, output) && m <= |control| && i < m && j < B
    ensures i * B + j < |ReadGates(control, mem, B, output, m)| && i * B + j < |mem|
    ensures ReadGates(control, mem, B, output, m)[i * B + j] == CCX(control[i], mem[i * B + j], output[j])
  {
    ReadGateAtStart(control, mem, B, output, m, i, j);
    BlockInMem(|control|, B, |mem|, i);
    StartValue(i, B);
  }

  /** A block read targets only output[0..n). */
  lemma {:induction false} BlockTargets(c: nat, cells: seq<nat>, output: seq<nat>, n: nat, q: nat)
    requires n <= |cells| && n <= |output| && Outside(q, output, 0, n)
    ensures Untargeted(ReadBlock(c, cells, output, n), q)
    decreases n
  {
    if n > 0 {
      BlockTargets(c, cells, output, n - 1, q);
    }
  }

  /** controlled_read targets only output[0..B). */
  lemma {:induction false} ReadTargets(control: seq<nat>, mem: seq<nat>, B: nat, output: seq<nat>, m: nat, q: nat)
    requires ReadShape(control, mem, B, output) && m <= |control| && B <= |output|
    requires Outside(q, output, 0, B)
    ensures Untargeted(ReadGates(control, mem, B, output, m), q)
    decreases m
  {
    if m > 0 {
      ReadTargets(control, mem, B, output, m - 1, q);
      var front: seq<Gate> := ReadGates(control, mem, B, output, m - 1);
      var block: seq<Gate> := ReadBlock(control[m - 1], Block(mem, B, |control|, m - 1), output, B);
      BlockTargets(control[m - 1], Block(mem, B, |control|, m - 1), output, B, q);
      assert ReadGates(control, mem, B, output, m) == front + block;
      forall n: nat | n < |front + block| ensures (front + block)[n].t != q {
        if n >= |front| {
          assert (front + block)[n] == block[n - |front|];
        }
      }
    }
  }

  /** controlled_read never writes a control or memory qubit. */
  lemma ReadKeepsControlAndMem(control: seq<nat>, mem: seq<nat>, B: nat, output: seq<nat>, m: nat)
    requires ReadOperands(control, mem, B, output) && B <= |output| && m <= |control|
    ensures forall i :: 0 <= i < |control| ==> Untargeted(ReadGates(control, mem, B, output, m), control[i])
    ensures forall l :: 0 <= l < |mem| ==> Untargeted(ReadGates(control, mem, B, output, m), mem[l])
  {
    forall i | 0 <= i < |control| ensures Untargeted(ReadGates(control, mem, B, output, m), control[i]) {
      assert Outside(control[i], output, 0, B);
      ReadTargets(control, mem, B, output, m, control[i]);
    }
    forall l | 0 <= l < |mem| ensures Untargeted(ReadGates(control, mem, B, output, m), mem[l]) {
      assert Outside(mem[l], output, 0, B);
      ReadTargets(control, mem, B, output, m, mem[l]);
    }
  }

  /** Every register indexes a `width`-bit state. */
  predicate ReadInRange(control: seq<nat>, mem: seq<nat>, output: seq<nat>, width: nat) {
    InRange(control, width) && InRange(mem, width) && InRange(output, width)
  }

  /** What the first m control qubits xor into output[j]: the parity of control[i] AND mem[i * B + j] over i < m. */
  function Selected(s: seq<bool>, control: seq<nat>, mem: seq<nat>, B: nat, j: nat, m: nat): bool
    requires Start(|control|, B) <= |mem| && j < B && m <= |control|
    requires InRange(control, |s|) && InRange(mem, |s|)
    decreases m
  {
    if m == 0 then false
    else
      Selected(s, control, mem, B, j, m - 1) != (s[control[m - 1]] && s[Block(mem, B, |control|, m - 1)[j]])
  }

  /** With control one-hot at k, the parity is bit j of block k, once block k is included. */
  lemma {:induction false} SelectedOneHot(s: seq<bool>, control: seq<nat>, mem: seq<nat>, B: nat, j: nat, m: nat, k: nat)
    requires Start(|control|, B) <= |mem| && j < B && m <= |control|
    requires InRange(control, |s|) && InRange(mem, |s|) && k < |control|
    requires forall i :: 0 <= i < |control| ==> s[control[i]] == (i == k)
    ensures Selected(s, control, mem, B, j, m) == (k < m && s[Block(mem, B, |control|, k)[j]])
    decreases m
  {
    if m > 0 {
      SelectedOneHot(s, control, mem, B, j, m - 1, k);
    }
  }

  /** With every control qubit clear, nothing is selected. */
  lemma {:induction false} SelectedNone(s: seq<bool>, control: seq<nat>, mem: seq<nat>, B: nat, j: nat, m: nat)
    requires Start(|control|, B) <= |mem| && j < B && m <= |control|
    requires InRange(control, |s|) && InRange(mem, |s|)
    requires forall i :: 0 <= i < |control| ==> !s[control[i]]
    ensures !Selected(s, control, mem, B, j, m)
    decreases m
  {
    if m > 0 {
      SelectedNone(s, control, mem, B, j, m - 1);
    }
  }

  /**
   * The first n gates of a block read xor c AND cells[j] into output[j]
   * for j < n, and change nothing outside output[0..n).
   */
  lemma {:induction false} BlockEffect(c: nat, cells: seq<nat>, output: seq<nat>, r: seq<bool>, n: nat)
    requires n <= |cells| && n <= |output| && Distinct(output)
    requires Outside(c, output, 0, |output|) && Disjoint(cells, output)
    requires c < |r| && InRange(cells, |r|) && InRange(output, |r|)
    ensures AllFit(ReadBlock(c, cells, output, n), |r|)
    ensures forall j {:trigger Apply(ReadBlock(c, cells, output, n), r)[output[j]]} :: 0 <= j < n ==>
              Apply(ReadBlock(c, cells, output, n), r)[output[j]] == (r[output[j]] != (r[c] && r[cells[j]]))
    ensures forall q {:trigger Apply(ReadBlock(c, cells, output, n), r)[q]} ::
              0 <= q < |r| && Outside(q, output, 0, n) ==> Apply(ReadBlock(c, cells, output, n), r)[q] == r[q]
    decreases n
  {
    if n > 0 {
      BlockEffect(c, cells, output, r, n - 1);
      var prev := Apply(ReadBlock(c, cells, output, n - 1), r);
      var a, t := cells[n - 1], output[n - 1];
      assert prev[c] == r[c] by {
        assert Outside(c, output, 0, n - 1);
      }
      assert prev[a] == r[a] by {
        assert Outside(a, output, 0, n - 1);
      }
      assert prev[t] == r[t] by {
        assert Outside(t, output, 0, n - 1);
      }
      assert Apply(ReadBlock(c, cells, output, n), r) == prev[t := r[t] != (r[c] && r[a])];
      forall q | 0 <= q < |r| && Outside(q, output, 0, n)
        ensures Apply(ReadBlock(c, cells, output, n), r)[q] == r[q]
      {
        assert Outside(q, output, 0, n - 1) && q != t;
      }
    }
  }

  /** Memory block i keeps its qubits apart from the control qubit and the output. */
  lemma BlockApart(control: seq<nat>, mem: seq<nat>, B: nat, output: seq<nat>, i: nat)
    requires ReadOperands(control, mem, B, output) && i < |control|
    ensures Outside(control[i], output, 0, |output|) && Disjoint(Block(mem, B, |control|, i), output)
  {
    BlockInMem(|control|, B, |mem|, i);
  }

  /**
   * The first m control qubits xor the parity Selected(j) into output[j]
   * for every j < B, and change no other qubit.
   */
  lemma {:induction false} ReadEffect(control: seq<nat>, mem: seq<nat>, B: nat, output: seq<nat>, s: seq<bool>, m: nat)
    requires ReadRegisters(control, mem, B, output) && B <= |output| && m <= |control|
    requires ReadInRange(control, mem, output, |s|)
    ensures AllFit(ReadGates(control, mem, B, output, m), |s|)
    ensures forall j {:trigger Apply(ReadGates(control, mem, B, output, m), s)[output[j]]} :: 0 <= j < B ==>
              Apply(ReadGates(control, mem, B, output, m), s)[output[j]] ==
                (s[output[j]] != Selected(s, control, mem, B, j, m))
    ensures forall q {:trigger Apply(ReadGates(control, mem, B, output, m), s)[q]} ::
              0 <= q < |s| && Outside(q, output, 0, B) ==> Apply(ReadGates(control, mem, B, output, m), s)[q] == s[q]
    decreases m
  {
    if m > 0 {
      var i := m - 1;
      ReadEffect(control, mem, B, output, s, i);
      BlockApart(control, mem, B, output, i);
      var cells := Block(mem, B, |control|, i);
      var front := ReadGates(control, mem, B, output, i);
      var block := ReadBlock(control[i], cells, output, B);
      var r := Apply(front, s);
      assert InRange(cells, |r|);
      BlockEffect(control[i], cells, output, r, B);
      ApplyConcat(front, block, s);
      assert r[control[i]] == s[control[i]] by {
        assert Outside(control[i], output, 0, B);
      }
      forall j | 0 <= j < B ensures r[cells[j]] == s[cells[j]] {
        assert Outside(cells[j], output, 0, B);
      }
      assert Apply(ReadGates(control, mem, B, output, m), s) == Apply(block, r);
    }
  }

  /** With control one-hot at k, output[j] ends up xored with bit j of block k. */
  lemma ReadSelectsBlock(control: seq<nat>, mem: seq<nat>, B: nat, output: seq<nat>, s: seq<bool>, k: nat)
    requires ReadRegisters(control, mem, B, output) && ReadInRange(control, mem, output, |s|)
    requires k < |control| && forall i :: 0 <= i < |control| ==> s[control[i]] == (i == k)
    ensures B <= |output|
    ensures AllFit(ReadGates(control, mem, B, output, |control|), |s|)
    ensures forall j {:trigger Apply(ReadGates(control, mem, B, output, |control|), s)[output[j]]} :: 0 <= j < B ==>
              Apply(ReadGates(control, mem, B, output, |control|), s)[output[j]] == (s[output[j]] != s[Block(mem, B, |control|, k)[j]])
  {
    var L := |control|;
    ReadEffect(control, mem, B, output, s, L);
    forall j | 0 <= j < B
      ensures Apply(ReadGates(control, mem, B, output, L), s)[output[j]] == (s[output[j]] != s[Block(mem, B, |control|, k)[j]])
    {
      SelectedOneHot(s, control, mem, B, j, L, k);
    }
  }

  /**
   * A one-hot control selects a block: with control one-hot at k and the
   * output block clear, controlled_read leaves output[0..B) holding
   * block k of the memory (ReadEffect: every other qubit is unchanged).
   */
  lemma ReadCopiesBlock(control: seq<nat>, mem: seq<nat>, B: nat, output: seq<nat>, s: seq<bool>, k: nat)
    requires ReadRegisters(control, mem, B, output) && ReadInRange(control, mem, output, |s|)
    requires k < |control| && forall i :: 0 <= i < |control| ==> s[control[i]] == (i == k)
    requires forall j :: 0 <= j < B ==> !s[output[j]]
    ensures B <= |output|
    ensures AllFit(ReadGates(control, mem, B, output, |control|), |s|)
    ensures Read(Apply(ReadGates(control, mem, B, output, |control|), s), output[..B]) == Read(s, Block(mem, B, |control|, k))
  {
    ReadSelectsBlock(control, mem, B, output, s, k);
    var r := Apply(ReadGates(control, mem, B, output, |control|), s);
    var cells := Block(mem, B, |control|, k);
    forall j | 0 <= j < B ensures r[output[j]] == s[cells[j]] {
      assert r[output[j]] == (s[output[j]] != s[cells[j]]);
    }
    ReadAgree(r, output, s, cells);
  }

  /** The first |b| qubits of a read the same bits in r as b does in s when they agree qubit by qubit. */
  lemma ReadAgree(r: seq<bool>, a: seq<nat>, s: seq<bool>, b: seq<nat>)
    requires |b| <= |a| && InRange(a, |r|) && InRange(b, |s|)
    requires forall j :: 0 <= j < |b| ==> r[a[j]] == s[b[j]]
    ensures Read(r, a[..|b|]) == Read(s, b)
  {
    var got, want := Read(r, a[..|b|]), Read(s, b);
    assert forall j :: 0 <= j < |b| ==> got[j] == want[j];
  }

  /** With every control qubit clear, controlled_read changes nothing. */
  lemma ReadWithoutControl(control: seq<nat>, mem: seq<nat>, B: nat, output: seq<nat>, s: seq<bool>)
    requires ReadRegisters(control, mem, B, output) && ReadInRange(control, mem, output, |s|)
    requires forall i :: 0 <= i < |control| ==> !s[control[i]]
    ensures AllFit(ReadGates(control, mem, B, output, |control|), |s|)
    ensures Apply(ReadGates(control, mem, B, output, |control|), s) == s
  {
    var L := |control|;
    if L == 0 {
      assert ReadGates(control, mem, B, output, 0) == [];
    } else {
      ReadEffect(control, mem, B, output, s, L);
      var r := Apply(ReadGates(control, mem, B, output, L), s);
      forall q | 0 <= q < |s| ensures r[q] == s[q] {
        if !Outside(q, output, 0, B) {
          var j :| 0 <= j < B && output[j] == q;
          SelectedNone(s, control, mem, B, j, L);
        }
      }
    }
  }
}
