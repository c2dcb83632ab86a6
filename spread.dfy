/**
 * spread: the bits of a list of registers, register after register, each
 * register's bits in their own order.
 */
module Spread {

  /** The registers laid end to end. */
  function Flatten<T>(registers: seq<seq<T>>): (flat: seq<T>)
    decreases |registers|
  {
    if registers == [] then []
    else Flatten(registers[..|registers| - 1]) + registers[|registers| - 1]
  }

  /** The sum of the register sizes. */
  function TotalSize<T>(registers: seq<seq<T>>): nat
    decreases |registers|
  {
    if registers == [] then 0
    else TotalSize(registers[..|registers| - 1]) + |registers[|registers| - 1]|
  }

  /** spread(registers): res grows by one bit at a time, register by register. */
  method Spread<T>(registers: seq<seq<T>>) returns (res: seq<T>)
    ensures res == Flatten(registers)
    ensures |res| == TotalSize(registers)
  {
    res := [];
    for k := 0 to |registers|
      invariant res == Flatten(registers[..k])
    {
      var reg := registers[k];
      for j := 0 to |reg|
        invariant res == Flatten(registers[..k]) + reg[..j]
      {
        res := res + [reg[j]];
        assert reg[..j + 1] == reg[..j] + [reg[j]];
      }
      assert reg[..|reg|] == reg;
      assert registers[..k + 1][..k] == registers[..k];
    }
    assert registers[..|registers|] == registers;
    FlattenLength(registers);
  }

  /** The result is as long as all the registers together. */
  lemma {:induction false} FlattenLength<T>(registers: seq<seq<T>>)
    ensures |Flatten(registers)| == TotalSize(registers)
    decreases |registers|
  {
    if registers != [] {
      FlattenLength(registers[..|registers| - 1]);
    }
  }

  /** Flattening a concatenation of lists of registers concatenates their flattenings. */
  lemma {:induction false} FlattenConcat<T>(a: seq<seq<T>>, b: seq<seq<T>>)
    ensures Flatten(a + b) == Flatten(a) + Flatten(b)
    decreases |b|
  {
    if b == [] {
      assert a + b == a;
    } else {
      var front := b[..|b| - 1];
      FlattenConcat(a, front);
      assert (a + b)[..|a + b| - 1] == a + front;
    }
  }

  /**
   * Order: bit i of register k sits after the bits of registers 0..k-1,
   * at position TotalSize(registers[..k]) + i.
   */
  lemma {:induction false} FlattenAt<T>(registers: seq<seq<T>>, k: nat, i: nat)
    requires k < |registers| && i < |registers[k]|
    ensures TotalSize(registers[..k]) + i < |Flatten(registers)|
    ensures Flatten(registers)[TotalSize(registers[..k]) + i] == registers[k][i]
    decreases |registers|
  {
    var n := |registers| - 1;
    var front := registers[..n];
    FlattenLength(front);
    if k == n {
      assert registers[..k] == front;
    } else {
      FlattenAt(front, k, i);
      assert front[..k] == registers[..k];
      FlattenLength(registers);
    }
  }

  /** Every bit of the result comes from some register. */
  lemma {:induction false} FlattenFrom<T>(registers: seq<seq<T>>, p: nat)
    requires p < |Flatten(registers)|
    ensures exists k, i :: 0 <= k < |registers| && 0 <= i < |registers[k]| && Flatten(registers)[p] == registers[k][i]
    decreases |registers|
  {
    var n := |registers| - 1;
    var front := registers[..n];
    if p < |Flatten(front)| {
      FlattenFrom(front, p);
      var k, i :| 0 <= k < |front| && 0 <= i < |front[k]| && Flatten(front)[p] == front[k][i];
      assert Flatten(registers)[p] == registers[k][i];
    } else {
      assert Flatten(registers)[p] == registers[n][p - |Flatten(front)|];
    }
  }
}
