/**
 * A circuit under construction: the qubits it was declared over and the
 * gates appended to it so far, in order. The helpers either append to a
 * circuit the caller owns or build a fresh one over their own registers
 * and hand back its gate list.
 */
module Circuits {
  import opened Gates

  datatype Option<T> = None | Some(value: T)

  /** A register is a sequence of qubit indices. */
  predicate Distinct(reg: seq<nat>) {
    forall i, j :: 0 <= i < |reg| && 0 <= j < |reg| && i != j ==> reg[i] != reg[j]
  }

  predicate Disjoint(a: seq<nat>, b: seq<nat>) {
    forall i, j :: 0 <= i < |a| && 0 <= j < |b| ==> a[i] != b[j]
  }

  /** q is none of reg[lo..hi). */
  predicate Outside(q: nat, reg: seq<nat>, lo: int, hi: int)
    requires 0 <= lo && hi <= |reg|
  {
    forall a :: lo <= a < hi ==> reg[a] != q
  }

  /** Every qubit of `reg` is one of `qubits`. */
  predicate Within(reg: seq<nat>, qubits: set<nat>) {
    forall i :: 0 <= i < |reg| ==> reg[i] in qubits
  }

  /** Every qubit of `reg` indexes a `width`-bit state. */
  predicate InRange(reg: seq<nat>, width: nat) {
    forall i :: 0 <= i < |reg| ==> reg[i] < width
  }

  /** The bits the qubits of `reg` hold in state `s`, in register order. */
  function Read(s: seq<bool>, reg: seq<nat>): (r: seq<bool>)
    requires InRange(reg, |s|)
    ensures |r| == |reg| && forall i :: 0 <= i < |reg| ==> r[i] == s[reg[i]]
    decreases |reg|
  {
    if reg == [] then [] else Read(s, reg[..|reg| - 1]) + [s[reg[|reg| - 1]]]
  }

  /** The qubits of a list of registers. */
  function QubitsOf(registers: seq<seq<nat>>): (qs: set<nat>)
    ensures forall k, i :: 0 <= k < |registers| && 0 <= i < |registers[k]| ==> registers[k][i] in qs
  {
    set k, i | 0 <= k < |registers| && 0 <= i < |registers[k]| :: registers[k][i]
  }

  class Circuit {
    var qubits: set<nat>
    var gates: seq<Gate>

    /** Every gate acts on declared qubits, and on different ones. */
    ghost predicate Valid()
      reads this
    {
      forall i :: 0 <= i < |gates| ==> Proper(gates[i]) && Operands(gates[i]) <= qubits
    }

    /** An empty circuit over the qubits of the given registers. */
    constructor (registers: seq<seq<nat>>)
      ensures Valid() && qubits == QubitsOf(registers) && gates == []
    {
      qubits := QubitsOf(registers);
      gates := [];
    }

    method X(t: nat)
      requires Valid() && t in qubits
      modifies this
      ensures Valid() && qubits == old(qubits)
      ensures gates == old(gates) + [Gates.X(t)]
    {
      gates := gates + [Gates.X(t)];
    }

    method Cnot(c: nat, t: nat)
      requires Valid() && c in qubits && t in qubits && c != t
      modifies this
      ensures Valid() && qubits == old(qubits)
      ensures gates == old(gates) + [Gates.CX(c, t)]
    {
      gates := gates + [Gates.CX(c, t)];
    }

    method Ccx(c1: nat, c2: nat, t: nat)
      requires Valid() && c1 in qubits && c2 in qubits && t in qubits
      requires c1 != c2 && c1 != t && c2 != t
      modifies this
      ensures Valid() && qubits == old(qubits)
      ensures gates == old(gates) + [Gates.CCX(c1, c2, t)]
    {
      gates := gates + [Gates.CCX(c1, c2, t)];
    }
  }
}
