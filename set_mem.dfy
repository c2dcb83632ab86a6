/**
 * set_mem: for every value i and every bit j of its binary form, least
 * significant first, an X on mem[i * B + j] where the bit is 1. Starting
 * from a clear memory this writes value i into block i, provided it fits
 * in B bits; a value that does not fit spills into the blocks after its own.
 */
module SetMem {
  import opened Gates
  import opened Bits
  import opened Circuits
  import opened Blocks

  /** Every 1 bit of `bits`, written from mem[at] on, lands on a memory qubit. */
  predicate Addressable(mem: seq<nat>, at: nat, bits: seq<bool>) {
    forall j :: 0 <= j < |bits| && bits[j] ==> at + j < |mem|
  }

  /** The bits set_mem writes for each value, least significant first (see LsbFirst). */
  function Words(values: seq<nat>, B: nat): (words: seq<seq<bool>>)
    ensures |words| == |values|
    decreases |values|
  {
    if values == [] then [] else Words(values[..|values| - 1], B) + [LsbFirst(values[|values| - 1], B)]
  }

  lemma {:induction false} WordsAt(values: seq<nat>, B: nat, i: nat)
    requires i < |values|
    ensures Words(values, B)[i] == LsbFirst(values[i], B)
    decreases |values|
  {
    if i < |values| - 1 {
      WordsAt(values[..|values| - 1], B, i);
    }
  }

  /**
   * What set_mem needs to index mem without failing: the 1 bits of every
   * word, written from the start of its block, stay inside mem.
   */
  predicate WordsAddressable(words: seq<seq<bool>>, mem: seq<nat>, B: nat) {
    forall i :: 0 <= i < |words| ==> Addressable(mem, Start(i, B), words[i])
  }

  /** The gates for the first n bits of one word written from mem[at]: an X for every 1 bit. */
  function WordGates(mem: seq<nat>, at: nat, bits: seq<bool>, n: nat): (gs: seq<Gate>)
    requires n <= |bits| && Addressable(mem, at, bits)
    decreases n
  {
    if n == 0 then []
    else WordGates(mem, at, bits, n - 1) + (if bits[n - 1] then [X(mem[at + n - 1])] else [])
  }

  /** The gates for the first m words, word i written from the start of block i. */
  function SetMemGates(words: seq<seq<bool>>, mem: seq<nat>, B: nat, m: nat): (gs: seq<Gate>)
    requires WordsAddressable(words, mem, B) && m <= |words|
    decreases m
  {
    if m == 0 then []
    else SetMemGates(words, mem, B, m - 1) + WordGates(mem, Start(m - 1, B), words[m - 1], |words[m - 1]|)
  }

  /** Writing word m appends its gates to those of the first m words. */
  lemma SetMemGatesSnoc(words: seq<seq<bool>>, mem: seq<nat>, B: nat, m: nat)
    requires m < |words| && WordsAddressable(words, mem, B)
    ensures SetMemGates(words, mem, B, m + 1) == SetMemGates(words, mem, B, m) + WordGates(mem, Start(m, B), words[m], |words[m]|)
  {
  }

  /** set_mem(values, mem, B, qc): appends to qc, or returns the gates of a fresh circuit over mem. */
  method SetMem(values: seq<nat>, mem: seq<nat>, B: nat, qc: Circuit?) returns (instruction: Option<seq<Gate>>)
    requires WordsAddressable(Words(values, B), mem, B)
    requires qc != null ==> qc.Valid() && Within(mem, qc.qubits)
    modifies qc
    ensures qc == null ==> instruction == Some(SetMemGates(Words(values, B), mem, B, |values|))
    ensures qc != null ==> instruction == None && qc.Valid() && qc.qubits == old(qc.qubits)
    ensures qc != null ==> qc.gates == old(qc.gates) + SetMemGates(Words(values, B), mem, B, |values|)
  {
    ghost var words := Words(values, B);
    if qc == null {
      var memSet := new Circuit([mem]);
      assert [mem][0] == mem;
      EmitSetMem(memSet, values, words, mem, B);
      assert memSet.gates == SetMemGates(words, mem, B, |values|);
      instruction := Some(memSet.gates);
    } else {
      EmitSetMem(qc, values, words, mem, B);
      instruction := None;
    }
  }

  /** The loop over the values. */
  method EmitSetMem(circ: Circuit, values: seq<nat>, ghost words: seq<seq<bool>>, mem: seq<nat>, B: nat)
    requires words == Words(values, B) && WordsAddressable(words, mem, B)
    requires circ.Valid() && Within(mem, circ.qubits)
    modifies circ
    ensures circ.Valid() && circ.qubits == old(circ.qubits)
    ensures circ.gates == old(circ.gates) + SetMemGates(words, mem, B, |values|)
  {
    for i := 0 to |values|
      invariant circ.Valid() && circ.qubits == old(circ.qubits)
      invariant circ.gates == old(circ.gates) + SetMemGates(words, mem, B, i)
    {
      EmitValue(circ, values, words, mem, B, i);
      SetMemGatesSnoc(words, mem, B, i);
    }
  }

  /** One pass of that loop: the word of values[i], written from the start of block i. */
  method EmitValue(circ: Circuit, values: seq<nat>, ghost words: seq<seq<bool>>, mem: seq<nat>, B: nat, i: nat)
    requires words == Words(values, B) && WordsAddressable(words, mem, B) && i < |values|
    requires circ.Valid() && Within(mem, circ.qubits)
    modifies circ
    ensures circ.Valid() && circ.qubits == old(circ.qubits)
    ensures circ.gates == old(circ.gates) + WordGates(mem, Start(i, B), words[i], |words[i]|)
  {
    var bits := WordOf(values[i], B);
    WordsAt(values, B, i);
    EmitWord(circ, mem, B, i, bits);
  }

  /**
   * The bits of one value as set_mem lists them: bin(v) without its "0b"
   * prefix, left-padded with zeros to B digits when shorter, reversed so
   * the least significant bit comes first.
   */
  method WordOf(v: nat, B: nat) returns (bits: seq<bool>)
    ensures bits == LsbFirst(v, B)
  {
    var binary := Binary(v);
    var diff := B - |binary|;
    var padding := if diff > 0 then Zeros(diff) else [];
    assert padding + binary == Padded(v, B) by {
      if diff <= 0 {
        assert padding + binary == binary;
      }
    }
    binary := padding + binary;
    bits := Reverse(binary);
    LsbFirstAsWritten(v, B);
  }

  /** The loop over the bits of value i: an X on mem[i * B + j] for every 1 bit j. */
  method EmitWord(circ: Circuit, mem: seq<nat>, B: nat, i: nat, bits: seq<bool>)
    requires Addressable(mem, Start(i, B), bits)
    requires circ.Valid() && Within(mem, circ.qubits)
    modifies circ
    ensures circ.Valid() && circ.qubits == old(circ.qubits)
    ensures circ.gates == old(circ.gates) + WordGates(mem, Start(i, B), bits, |bits|)
  {
    StartValue(i, B);
    for j := 0 to |bits|
      invariant circ.Valid() && circ.qubits == old(circ.qubits)
      invariant circ.gates == old(circ.gates) + WordGates(mem, Start(i, B), bits, j)
    {
      if bits[j] {
        circ.X(mem[i * B + j]);
      }
    }
  }

  // ---------------------------------------------------------------------
  // Gate count

  /** The total popcount of the first m values. */
  function Popcounts(values: seq<nat>, m: nat): nat
    requires m <= |values|
    decreases m
  {
    if m == 0 then 0 else Popcounts(values, m - 1) + Popcount(values[m - 1])
  }

  /** One word costs an X per 1 bit among the bits written. */
  lemma {:induction false} WordGatesCount(mem: seq<nat>, at: nat, bits: seq<bool>, n: nat)
    requires n <= |bits| && Addressable(mem, at, bits)
    ensures |WordGates(mem, at, bits, n)| == Ones(bits[..n])
    decreases n
  {
    if n > 0 {
      WordGatesCount(mem, at, bits, n - 1);
      assert bits[..n] == bits[..n - 1] + [bits[n - 1]];
      OnesSnoc(bits[..n - 1], bits[n - 1]);
    }
  }

  /** The number of 1 bits in the first m words. */
  function OnesUpTo(words: seq<seq<bool>>, m: nat): nat
    requires m <= |words|
    decreases m
  {
    if m == 0 then 0 else OnesUpTo(words, m - 1) + Ones(words[m - 1])
  }

  /** The first m words cost an X per 1 bit. */
  lemma {:induction false} SetMemGatesOnes(words: seq<seq<bool>>, mem: seq<nat>, B: nat, m: nat)
    requires WordsAddressable(words, mem, B) && m <= |words|
    ensures |SetMemGates(words, mem, B, m)| == OnesUpTo(words, m)
    decreases m
  {
    if m > 0 {
      SetMemGatesOnes(words, mem, B, m - 1);
      var bits := words[m - 1];
      WordGatesCount(mem, Start(m - 1, B), bits, |bits|);
      assert bits[..|bits|] == bits;
    }
  }

  lemma {:induction false} OnesUpToPopcounts(values: seq<nat>, B: nat, m: nat)
    requires m <= |values|
    ensures OnesUpTo(Words(values, B), m) == Popcounts(values, m)
    decreases m
  {
    if m > 0 {
      OnesUpToPopcounts(values, B, m - 1);
      var words := Words(values, B);
      assert OnesUpTo(words, m) == OnesUpTo(words, m - 1) + Ones(words[m - 1]);
      WordsAt(values, B, m - 1);
      OnesLsbFirst(values[m - 1], B);
    }
  }

  /** set_mem emits exactly as many gates as there are 1 digits in the binary forms of the values. */
  lemma SetMemGatesCount(values: seq<nat>, mem: seq<nat>, B: nat)
    requires WordsAddressable(Words(values, B), mem, B)
    ensures |SetMemGates(Words(values, B), mem, B, |values|)| == Popcounts(values, |values|)
  {
    SetMemGatesOnes(Words(values, B), mem, B, |values|);
    OnesUpToPopcounts(values, B, |values|);
  }

  /** Every gate of a word is an X on a memory qubit. */
  lemma {:induction false} WordGatesTargets(mem: seq<nat>, at: nat, bits: seq<bool>, n: nat)
    requires n <= |bits| && Addressable(mem, at, bits)
    ensures forall k :: 0 <= k < |WordGates(mem, at, bits, n)| ==>
              WordGates(mem, at, bits, n)[k].X? && WordGates(mem, at, bits, n)[k].t in mem
    decreases n
  {
    if n > 0 {
      WordGatesTargets(mem, at, bits, n - 1);
    }
  }

  /** set_mem only ever emits X gates, and only on qubits of mem. */
  lemma {:induction false} SetMemTargets(words: seq<seq<bool>>, mem: seq<nat>, B: nat, m: nat)
    requires WordsAddressable(words, mem, B) && m <= |words|
    ensures forall k :: 0 <= k < |SetMemGates(words, mem, B, m)| ==>
              SetMemGates(words, mem, B, m)[k].X? && SetMemGates(words, mem, B, m)[k].t in mem
    decreases m
  {
    if m > 0 {
      SetMemTargets(words, mem, B, m - 1);
      WordGatesTargets(mem, Start(m - 1, B), words[m - 1], |words[m - 1]|);
    }
  }

  // ---------------------------------------------------------------------
  // Effect on the memory

  /** Values that fit: B >= 1, every value below 2^B, and one block of mem per value. */
  predicate Fitting(values: seq<nat>, mem: seq<nat>, B: nat) {
    1 <= B && Start(|values|, B) <= |mem| && forall i :: 0 <= i < |values| ==> values[i] < Pow2(B)
  }

  /** Words of exactly B bits, one block of mem per word. */
  predicate Layout(words: seq<seq<bool>>, mem: seq<nat>, B: nat) {
    Start(|words|, B) <= |mem| && forall i :: 0 <= i < |words| ==> |words[i]| == B
  }

  /** Fitting values make words of B bits that set_mem can address. */
  lemma FittingLayout(values: seq<nat>, mem: seq<nat>, B: nat)
    requires Fitting(values, mem, B)
    ensures Layout(Words(values, B), mem, B) && WordsAddressable(Words(values, B), mem, B)
  {
    var words := Words(values, B);
    forall i | 0 <= i < |values|
      ensures |words[i]| == B && Addressable(mem, Start(i, B), words[i])
    {
      WordsAt(values, B, i);
      LsbFirstRoundTrip(values[i], B);
      BlockInMem(|values|, B, |mem|, i);
    }
  }

  /** With distinct memory qubits, the qubit at address x is none of those at addresses [lo, hi) when x is not among them. */
  lemma DistinctOutside(mem: seq<nat>, x: nat, lo: nat, hi: nat)
    requires Distinct(mem) && x < |mem| && hi <= |mem| && (x < lo || hi <= x)
    ensures Outside(mem[x], mem, lo, hi)
  {
  }

  /**
   * The first n gates of one word flip mem[at + j] exactly when bit j is
   * 1, for j < n, and change nothing outside mem[at .. at + n).
   */
  lemma {:induction false} WordEffect(mem: seq<nat>, at: nat, bits: seq<bool>, r: seq<bool>, n: nat)
    requires n <= |bits| && at + |bits| <= |mem| && Distinct(mem) && InRange(mem, |r|)
    ensures Addressable(mem, at, bits)
    ensures AllFit(WordGates(mem, at, bits, n), |r|)
    ensures forall a {:trigger Apply(WordGates(mem, at, bits, n), r)[mem[a]]} :: at <= a < at + n ==>
              Apply(WordGates(mem, at, bits, n), r)[mem[a]] == (r[mem[a]] != bits[a - at])
    ensures forall q {:trigger Apply(WordGates(mem, at, bits, n), r)[q]} ::
              0 <= q < |r| && Outside(q, mem, at, at + n) ==> Apply(WordGates(mem, at, bits, n), r)[q] == r[q]
    decreases n
  {
    if n > 0 {
      WordEffect(mem, at, bits, r, n - 1);
      var front := WordGates(mem, at, bits, n - 1);
      var prev := Apply(front, r);
      var t := mem[at + n - 1];
      DistinctOutside(mem, at + n - 1, at, at + n - 1);
      assert prev[t] == r[t];
      var next := Apply(WordGates(mem, at, bits, n), r);
      if bits[n - 1] {
        var gs := front + [X(t)];
        assert gs[..|gs| - 1] == front;
        assert next == prev[t := !prev[t]];
      } else {
        assert WordGates(mem, at, bits, n) == front;
      }
      forall a | at <= a < at + n - 1 ensures next[mem[a]] == (r[mem[a]] != bits[a - at]) {
        assert prev[mem[a]] == (r[mem[a]] != bits[a - at]);
        assert mem[a] != t;
      }
      forall q | 0 <= q < |r| && Outside(q, mem, at, at + n) ensures next[q] == r[q] {
        assert Outside(q, mem, at, at + n - 1) && q != t;
      }
    }
  }

  /**
   * The first m words flip bit j of block i exactly when bit j of word i
   * is 1, for i < m and j < B, and change no qubit outside the first m
   * blocks.
   */
  lemma SetMemEffect(words: seq<seq<bool>>, mem: seq<nat>, B: nat, s: seq<bool>, m: nat)
    requires Layout(words, mem, B) && WordsAddressable(words, mem, B) && Distinct(mem) && InRange(mem, |s|)
    requires m <= |words| && Start(m, B) <= |mem|
    ensures AllFit(SetMemGates(words, mem, B, m), |s|)
    ensures forall i, j {:trigger Apply(SetMemGates(words, mem, B, m), s)[Block(mem, B, |words|, i)[j]]} ::
              0 <= i < m && 0 <= j < B ==>
              Apply(SetMemGates(words, mem, B, m), s)[Block(mem, B, |words|, i)[j]] ==
                (s[Block(mem, B, |words|, i)[j]] != words[i][j])
    ensures forall q {:trigger Apply(SetMemGates(words, mem, B, m), s)[q]} ::
              0 <= q < |s| && Outside(q, mem, 0, Start(m, B)) ==> Apply(SetMemGates(words, mem, B, m), s)[q] == s[q]
  {
    SetMemKeeps(words, mem, B, s, m);
    SetMemFlips(words, mem, B, s, m);
  }

  /** The first m words change no qubit outside the first m blocks. */
  lemma {:induction false} SetMemKeeps(words: seq<seq<bool>>, mem: seq<nat>, B: nat, s: seq<bool>, m: nat)
    requires Layout(words, mem, B) && WordsAddressable(words, mem, B) && Distinct(mem) && InRange(mem, |s|)
    requires m <= |words| && Start(m, B) <= |mem|
    ensures AllFit(SetMemGates(words, mem, B, m), |s|)
    ensures forall q {:trigger Apply(SetMemGates(words, mem, B, m), s)[q]} ::
              0 <= q < |s| && Outside(q, mem, 0, Start(m, B)) ==> Apply(SetMemGates(words, mem, B, m), s)[q] == s[q]
    decreases m
  {
    if m > 0 {
      var k := m - 1;
      SetMemKeeps(words, mem, B, s, k);
      var at := Start(k, B);
      var front := SetMemGates(words, mem, B, k);
      var last := WordGates(mem, at, words[k], B);
      var r := Apply(front, s);
      WordEffect(mem, at, words[k], r, B);
      ApplyConcat(front, last, s);
      assert SetMemGates(words, mem, B, m) == front + last;
      forall q | 0 <= q < |s| && Outside(q, mem, 0, Start(m, B)) ensures Apply(last, r)[q] == s[q] {
        assert Outside(q, mem, 0, at) && Outside(q, mem, at, at + B);
      }
    }
  }

  /** The first m words flip bit j of block i, for i < m, exactly when bit j of word i is 1. */
  lemma {:induction false} SetMemFlips(words: seq<seq<bool>>, mem: seq<nat>, B: nat, s: seq<bool>, m: nat)
    requires Layout(words, mem, B) && WordsAddressable(words, mem, B) && Distinct(mem) && InRange(mem, |s|)
    requires m <= |words| && Start(m, B) <= |mem|
    ensures AllFit(SetMemGates(words, mem, B, m), |s|)
    ensures forall i, j {:trigger Apply(SetMemGates(words, mem, B, m), s)[Block(mem, B, |words|, i)[j]]} ::
              0 <= i < m && 0 <= j < B ==>
              Apply(SetMemGates(words, mem, B, m), s)[Block(mem, B, |words|, i)[j]] ==
                (s[Block(mem, B, |words|, i)[j]] != words[i][j])
    decreases m
  {
    SetMemKeeps(words, mem, B, s, m);
    if m > 0 {
      var k := m - 1;
      SetMemFlips(words, mem, B, s, k);
      SetMemKeeps(words, mem, B, s, k);
      var at := Start(k, B);
      var bits := words[k];
      var front := SetMemGates(words, mem, B, k);
      var last := WordGates(mem, at, bits, B);
      var r := Apply(front, s);
      WordEffect(mem, at, bits, r, B);
      ApplyConcat(front, last, s);
      assert SetMemGates(words, mem, B, m) == front + last;
      var after := Apply(last, r);
      forall i, j | 0 <= i < m && 0 <= j < B
        ensures after[Block(mem, B, |words|, i)[j]] == (s[Block(mem, B, |words|, i)[j]] != words[i][j])
      {
        BlockInMem(|words|, B, |mem|, i);
        var x := Start(i, B) + j;
        assert Block(mem, B, |words|, i)[j] == mem[x];
        if i < k {
          StartFits(k, B, i);
          DistinctOutside(mem, x, at, at + B);
        } else {
          DistinctOutside(mem, x, 0, at);
          assert after[mem[x]] == (r[mem[x]] != bits[j]);
        }
      }
    }
  }

  /**
   * Values that fit, written to distinct memory qubits: bit j of block i
   * is flipped exactly when bit j of values[i] is 1, and every qubit
   * outside the written blocks keeps its value.
   */
  lemma SetMemWrites(values: seq<nat>, mem: seq<nat>, B: nat, s: seq<bool>)
    requires Fitting(values, mem, B) && Distinct(mem) && InRange(mem, |s|)
    ensures WordsAddressable(Words(values, B), mem, B)
    ensures AllFit(SetMemGates(Words(values, B), mem, B, |values|), |s|)
    ensures forall i, j :: 0 <= i < |values| && 0 <= j < B ==>
              Apply(SetMemGates(Words(values, B), mem, B, |values|), s)[Block(mem, B, |values|, i)[j]] ==
                (s[Block(mem, B, |values|, i)[j]] != Bit(values[i], j))
    ensures forall q :: 0 <= q < |s| && Outside(q, mem, 0, Start(|values|, B)) ==>
              Apply(SetMemGates(Words(values, B), mem, B, |values|), s)[q] == s[q]
  {
    var words := Words(values, B);
    FittingLayout(values, mem, B);
    SetMemEffect(words, mem, B, s, |values|);
    forall i, j | 0 <= i < |values| && 0 <= j < B
      ensures Apply(SetMemGates(words, mem, B, |values|), s)[Block(mem, B, |values|, i)[j]] ==
                (s[Block(mem, B, |values|, i)[j]] != Bit(values[i], j))
    {
      WordsAt(values, B, i);
      LsbFirstBit(values[i], B, j);
    }
  }

  /**
   * From a clear memory, set_mem leaves in block i the B bits of
   * values[i], least significant first, so decoding the block gives
   * values[i] back.
   */
  lemma SetMemDecodes(values: seq<nat>, mem: seq<nat>, B: nat, s: seq<bool>, i: nat)
    requires Fitting(values, mem, B) && Distinct(mem) && InRange(mem, |s|) && i < |values|
    requires forall a :: 0 <= a < |mem| ==> !s[mem[a]]
    ensures WordsAddressable(Words(values, B), mem, B)
    ensures AllFit(SetMemGates(Words(values, B), mem, B, |values|), |s|)
    ensures Read(Apply(SetMemGates(Words(values, B), mem, B, |values|), s), Block(mem, B, |values|, i)) == LsbFirst(values[i], B)
    ensures ValueOf(Read(Apply(SetMemGates(Words(values, B), mem, B, |values|), s), Block(mem, B, |values|, i))) == values[i]
  {
    var words := Words(values, B);
    FittingLayout(values, mem, B);
    WordsLand(words, mem, B, s, i);
    WordsAt(values, B, i);
    LsbFirstRoundTrip(values[i], B);
  }

  /** From a clear memory, block i ends up holding word i. */
  lemma WordsLand(words: seq<seq<bool>>, mem: seq<nat>, B: nat, s: seq<bool>, i: nat)
    requires Layout(words, mem, B) && WordsAddressable(words, mem, B) && Distinct(mem) && InRange(mem, |s|)
    requires i < |words| && forall a :: 0 <= a < |mem| ==> !s[mem[a]]
    ensures AllFit(SetMemGates(words, mem, B, |words|), |s|)
    ensures Read(Apply(SetMemGates(words, mem, B, |words|), s), Block(mem, B, |words|, i)) == words[i]
  {
    SetMemEffect(words, mem, B, s, |words|);
    var r := Apply(SetMemGates(words, mem, B, |words|), s);
    var cells := Block(mem, B, |words|, i);
    BlockClear(mem, B, |words|, i, s);
    var got := Read(r, cells);
    forall j | 0 <= j < B ensures got[j] == words[i][j] {
      assert !s[cells[j]];
    }
    assert got == words[i];
  }

  /** The qubits of a block of a clear memory are clear. */
  lemma BlockClear(mem: seq<nat>, B: nat, n: nat, i: nat, s: seq<bool>)
    requires Start(n, B) <= |mem| && i < n && InRange(mem, |s|)
    requires forall a :: 0 <= a < |mem| ==> !s[mem[a]]
    ensures forall j :: 0 <= j < B ==> !s[Block(mem, B, n, i)[j]]
  {
    BlockInMem(n, B, |mem|, i);
    forall j | 0 <= j < B ensures !s[Block(mem, B, n, i)[j]] {
      assert Block(mem, B, n, i)[j] == mem[Start(i, B) + j];
    }
  }

  // ---------------------------------------------------------------------
  // Overflow

  /** Adding words only appends gates: a gate emitted for the first k words stays in the list. */
  lemma {:induction false} SetMemGatesKeep(words: seq<seq<bool>>, mem: seq<nat>, B: nat, k: nat, m: nat, g: Gate)
    requires WordsAddressable(words, mem, B) && k <= m <= |words|
    requires g in SetMemGates(words, mem, B, k)
    ensures g in SetMemGates(words, mem, B, m)
    decreases m
  {
    if k < m {
      SetMemGatesKeep(words, mem, B, k, m - 1, g);
      assert SetMemGates(words, mem, B, m) ==
        SetMemGates(words, mem, B, m - 1) + WordGates(mem, Start(m - 1, B), words[m - 1], |words[m - 1]|);
    }
  }

  /** The gates of a word hold an X for its last bit when that bit is 1. */
  lemma WordGatesLast(mem: seq<nat>, at: nat, bits: seq<bool>)
    requires Addressable(mem, at, bits) && bits != [] && bits[|bits| - 1]
    ensures at + |bits| - 1 < |mem| && X(mem[at + |bits| - 1]) in WordGates(mem, at, bits, |bits|)
  {
    var n := |bits|;
    assert WordGates(mem, at, bits, n) == WordGates(mem, at, bits, n - 1) + [X(mem[at + n - 1])];
  }

  /**
   * A word longer than B whose last bit is 1 makes an X on the qubit of its
   * last bit, which lies past the word's block.
   */
  lemma WordSpills(words: seq<seq<bool>>, mem: seq<nat>, B: nat, i: nat)
    requires WordsAddressable(words, mem, B) && i < |words| && |words[i]| > B && words[i][|words[i]| - 1]
    ensures Start(i, B) + |words[i]| <= |mem|
    ensures X(mem[Start(i, B) + |words[i]| - 1]) in SetMemGates(words, mem, B, |words|)
  {
    var bits := words[i];
    assert Addressable(mem, Start(i, B), bits);
    WordGatesLast(mem, Start(i, B), bits);
    var a := Start(i, B) + |bits| - 1;
    assert SetMemGates(words, mem, B, i + 1) ==
      SetMemGates(words, mem, B, i) + WordGates(mem, Start(i, B), bits, |bits|);
    SetMemGatesKeep(words, mem, B, i + 1, |words|, X(mem[a]));
  }

  /**
   * A value of 2^B or more is not refused: its word has more than B bits,
   * and its top bit, a 1, is written to mem[i * B + |word| - 1], an address
   * of i * B + B or more, past block i.
   */
  lemma SetMemSpills(values: seq<nat>, mem: seq<nat>, B: nat, i: nat)
    requires WordsAddressable(Words(values, B), mem, B) && i < |values| && values[i] >= Pow2(B)
    ensures B < |LsbFirst(values[i], B)| && i * B + |LsbFirst(values[i], B)| <= |mem|
    ensures X(mem[i * B + |LsbFirst(values[i], B)| - 1]) in SetMemGates(Words(values, B), mem, B, |values|)
  {
    WordsAt(values, B, i);
    LsbFirstOverflow(values[i], B);
    WordSpills(Words(values, B), mem, B, i);
    StartValue(i, B);
  }
}
