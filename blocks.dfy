/**
 * Memory laid out as consecutive blocks of B qubits: block i is
 * mem[i * B .. (i + 1) * B). The start of a block is counted block by
 * block, which keeps products of two variables out of the proofs;
 * StartValue converts back to i * B.
 */
module Blocks {
  import opened Circuits

  /** Where block i starts: i * B, counted block by block (see StartValue). */
  function Start(i: nat, B: nat): nat
    decreases i
  {
    if i == 0 then 0 else Start(i - 1, B) + B
  }

  lemma {:induction false} StartValue(i: nat, B: nat)
    ensures Start(i, B) == i * B
    decreases i
  {
    if i > 0 {
      StartValue(i - 1, B);
      assert (i - 1) * B + B == i * B;
    }
  }

  /** Block i of L blocks ends no later than the L blocks do. */
  lemma {:induction false} StartFits(L: nat, B: nat, i: nat)
    requires i < L
    ensures Start(i, B) + B <= Start(L, B)
    decreases L
  {
    if i < L - 1 {
      StartFits(L - 1, B, i);
    }
  }

  /** Block i of L blocks of B qubits lies inside a memory that holds the L blocks. */
  lemma BlockInMem(L: nat, B: nat, size: nat, i: nat)
    requires Start(L, B) <= size && i < L
    ensures Start(i, B) + B <= size
  {
    StartFits(L, B, i);
  }

  /** Block i of a memory of n blocks: the B qubits mem[i * B .. (i + 1) * B). */
  function Block(mem: seq<nat>, B: nat, n: nat, i: nat): (cells: seq<nat>)
    requires Start(n, B) <= |mem| && i < n
    ensures |cells| == B
    ensures forall width: nat {:trigger InRange(mem, width)} :: InRange(mem, width) ==> InRange(cells, width)
  {
    BlockInMem(n, B, |mem|, i);
    mem[Start(i, B) .. Start(i, B) + B]
  }

  /** Block i is the slice mem[i * B .. (i + 1) * B). */
  lemma BlockSlice(mem: seq<nat>, B: nat, n: nat, i: nat)
    requires Start(n, B) <= |mem| && i < n
    ensures i * B + B <= |mem| && Block(mem, B, n, i) == mem[i * B .. i * B + B]
  {
    BlockInMem(n, B, |mem|, i);
    StartValue(i, B);
  }
}
