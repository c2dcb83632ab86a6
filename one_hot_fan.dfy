/**
 * one_hot_fan: turns an n-qubit binary register `base` into a one-hot
 * register `fan` by doubling. After the first base bit, fan[0..2) holds
 * "base[0] = 0" and "base[0] = 1"; each further base bit i copies the AND
 * of base[i] and fan[j] into fan[2^i + j] (write) and then xors it back
 * into fan[j] (correct), so fan[0..2^(i+1)) stays one-hot.
 */
module Fanout {
  import opened Gates
  import opened Bits
  import opened Circuits

  /** Registers one_hot_fan can address: a non-empty base, a fan of at least 2^n distinct qubits, none of them in base. */
  predicate FanRegisters(base: seq<nat>, fan: seq<nat>) {
    1 <= |base| && Pow2(|base|) <= |fan| &&
    Distinct(fan) && Disjoint(base, fan)
  }

  /** The first base bit, done by hand. */
  function FirstGates(base: seq<nat>, fan: seq<nat>): seq<Gate>
    requires 1 <= |base| && 2 <= |fan|
  {
    [X(fan[0]), CX(base[0], fan[1]), CX(fan[1], fan[0])]
  }

  /** The first n gates of the write phase of a doubling step: fan[half + j] ^= b AND fan[j], for j < n. */
  function WriteLayer(b: nat, fan: seq<nat>, half: nat, n: nat): (gs: seq<Gate>)
    requires n <= half && 2 * half <= |fan|
    ensures |gs| == n
    decreases n
  {
    if n == 0 then [] else WriteLayer(b, fan, half, n - 1) + [CCX(b, fan[n - 1], fan[half + n - 1])]
  }

  /** The first n gates of the correct phase of a doubling step: fan[j] ^= fan[half + j], for j < n. */
  function CorrectLayer(fan: seq<nat>, half: nat, n: nat): (gs: seq<Gate>)
    requires n <= half && 2 * half <= |fan|
    ensures |gs| == n
    decreases n
  {
    if n == 0 then [] else CorrectLayer(fan, half, n - 1) + [CX(fan[half + n - 1], fan[n - 1])]
  }

  /** The doubling step for base bit i (i >= 1): the write phase, then the correct phase. */
  function Layer(base: seq<nat>, fan: seq<nat>, i: nat): seq<Gate>
    requires i < |base| && Pow2(i + 1) <= |fan|
  {
    WriteLayer(base[i], fan, Pow2(i), Pow2(i)) + CorrectLayer(fan, Pow2(i), Pow2(i))
  }

  /** The gates emitted for the first k base bits. */
  function FanGates(base: seq<nat>, fan: seq<nat>, k: nat): seq<Gate>
    requires 1 <= k <= |base| && Pow2(k) <= |fan|
    decreases k
  {
    if k == 1 then FirstGates(base, fan) else FanGates(base, fan, k - 1) + Layer(base, fan, k - 1)
  }

  /** The doubling step for base bit k appends its layer to the gates of the first k bits. */
  lemma FanGatesSnoc(base: seq<nat>, fan: seq<nat>, k: nat)
    requires 1 <= k < |base| && Pow2(k + 1) <= |fan|
    ensures Pow2(k) <= |fan|
    ensures FanGates(base, fan, k + 1) == FanGates(base, fan, k) + Layer(base, fan, k)
  {
    Pow2Monotone(k, k + 1);
  }

  /** The whole gate list of one_hot_fan. */
  function OneHotFanGates(base: seq<nat>, fan: seq<nat>): seq<Gate>
    requires FanRegisters(base, fan)
  {
    FanGates(base, fan, |base|)
  }

  /** one_hot_fan(base, fan, qc): appends to qc, or returns the gates of a fresh circuit over base and fan. */
  method OneHotFan(base: seq<nat>, fan: seq<nat>, qc: Circuit?) returns (instruction: Option<seq<Gate>>)
    requires FanRegisters(base, fan)
    requires qc != null ==> qc.Valid() && Within(base, qc.qubits) && Within(fan, qc.qubits)
    modifies qc
    ensures qc == null ==> instruction == Some(OneHotFanGates(base, fan))
    ensures qc != null ==> instruction == None && qc.Valid() && qc.qubits == old(qc.qubits)
    ensures qc != null ==> qc.gates == old(qc.gates) + OneHotFanGates(base, fan)
  {
    if qc == null {
      var encoder := new Circuit([base, fan]);
      assert [base, fan][0] == base && [base, fan][1] == fan;
      Encode(encoder, base, fan);
      assert encoder.gates == OneHotFanGates(base, fan);
      instruction := Some(encoder.gates);
    } else {
      Encode(qc, base, fan);
      instruction := None;
    }
  }

  /** The gate emission of one_hot_fan: the first base bit by hand, then one doubling step per further base bit. */
  method Encode(encoder: Circuit, base: seq<nat>, fan: seq<nat>)
    requires FanRegisters(base, fan)
    requires encoder.Valid() && Within(base, encoder.qubits) && Within(fan, encoder.qubits)
    modifies encoder
    ensures encoder.Valid() && encoder.qubits == old(encoder.qubits)
    ensures encoder.gates == old(encoder.gates) + OneHotFanGates(base, fan)
  {
    Pow2Monotone(1, |base|);
    First(encoder, base, fan);

    var i := 1;
    while i < |base|
      invariant 1 <= i <= |base| && Pow2(i) <= |fan|
      invariant encoder.Valid() && encoder.qubits == old(encoder.qubits)
      invariant encoder.gates == old(encoder.gates) + FanGates(base, fan, i)
    {
      Pow2Monotone(i + 1, |base|);
      Double(encoder, base, fan, i);
      FanGatesSnoc(base, fan, i);
      i := i + 1;
    }
  }

  /** The first base bit: fan[0] = NOT base[0], fan[1] = base[0]. */
  method First(encoder: Circuit, base: seq<nat>, fan: seq<nat>)
    requires 1 <= |base| && 2 <= |fan| && base[0] != fan[1] && fan[0] != fan[1]
    requires encoder.Valid() && base[0] in encoder.qubits && fan[0] in encoder.qubits && fan[1] in encoder.qubits
    modifies encoder
    ensures encoder.Valid() && encoder.qubits == old(encoder.qubits)
    ensures encoder.gates == old(encoder.gates) + FirstGates(base, fan)
  {
    encoder.X(fan[0]);
    encoder.Cnot(base[0], fan[1]);
    encoder.Cnot(fan[1], fan[0]);
  }

  /** One doubling step: the write loop, then the correct loop. */
  method Double(encoder: Circuit, base: seq<nat>, fan: seq<nat>, i: nat)
    requires FanRegisters(base, fan) && i < |base| && Pow2(i + 1) <= |fan|
    requires encoder.Valid() && Within(base, encoder.qubits) && Within(fan, encoder.qubits)
    modifies encoder
    ensures encoder.Valid() && encoder.qubits == old(encoder.qubits)
    ensures encoder.gates == old(encoder.gates) + Layer(base, fan, i)
  {
    var half := Pow2(i);
    Write(encoder, base[i], fan, half);
    Correct(encoder, fan, half);
  }

  /** The write loop of one doubling step. */
  method Write(encoder: Circuit, b: nat, fan: seq<nat>, half: nat)
    requires 2 * half <= |fan| && Distinct(fan) && forall j :: 0 <= j < |fan| ==> fan[j] != b
    requires encoder.Valid() && b in encoder.qubits && Within(fan, encoder.qubits)
    modifies encoder
    ensures encoder.Valid() && encoder.qubits == old(encoder.qubits)
    ensures encoder.gates == old(encoder.gates) + WriteLayer(b, fan, half, half)
  {
    for j := 0 to half
      invariant encoder.Valid() && encoder.qubits == old(encoder.qubits)
      invariant encoder.gates == old(encoder.gates) + WriteLayer(b, fan, half, j)
    {
      encoder.Ccx(b, fan[j], fan[half + j]);
    }
  }

  /** The correct loop of one doubling step. */
  method Correct(encoder: Circuit, fan: seq<nat>, half: nat)
    requires 2 * half <= |fan| && Distinct(fan)
    requires encoder.Valid() && Within(fan, encoder.qubits)
    modifies encoder
    ensures encoder.Valid() && encoder.qubits == old(encoder.qubits)
    ensures encoder.gates == old(encoder.gates) + CorrectLayer(fan, half, half)
  {
    for j := 0 to half
      invariant encoder.Valid() && encoder.qubits == old(encoder.qubits)
      invariant encoder.gates == old(encoder.gates) + CorrectLayer(fan, half, j)
    {
      encoder.Cnot(fan[half + j], fan[j]);
    }
  }

  /** The integer a register holds in state `s`, its first qubit being the least significant bit. */
  function RegisterValue(s: seq<bool>, reg: seq<nat>): nat
    requires InRange(reg, |s|)
  {
    ValueOf(Read(s, reg))
  }

  /** Reading one more qubit of a register adds its weight 2^i when it is set. */
  lemma RegisterValueSnoc(s: seq<bool>, reg: seq<nat>, i: nat)
    requires i < |reg| && InRange(reg, |s|)
    ensures RegisterValue(s, reg[..i + 1]) == RegisterValue(s, reg[..i]) + (if s[reg[i]] then Pow2(i) else 0)
  {
    assert Read(s, reg[..i + 1]) == Read(s, reg[..i]) + [s[reg[i]]];
    ValueOfSnoc(Read(s, reg[..i]), s[reg[i]]);
  }

  /** one_hot_fan emits 3 + sum over i in [1, n) of 2 * 2^i = 2^(n+1) - 1 gates. */
  lemma {:induction false} FanGateCount(base: seq<nat>, fan: seq<nat>, k: nat)
    requires 1 <= k <= |base| && Pow2(k) <= |fan|
    ensures |FanGates(base, fan, k)| == Pow2(k + 1) - 1
    decreases k
  {
    if k > 1 {
      FanGateCount(base, fan, k - 1);
    }
  }

  /** The gates of the first k steps act on qubits of any state wide enough for both registers. */
  lemma {:induction false} FanGatesFit(base: seq<nat>, fan: seq<nat>, k: nat, width: nat)
    requires 1 <= k <= |base| && Pow2(k) <= |fan|
    requires InRange(base, width) && InRange(fan, width)
    ensures AllFit(FanGates(base, fan, k), width)
    decreases k
  {
    if k > 1 {
      FanGatesFit(base, fan, k - 1, width);
      var L := Layer(base, fan, k - 1);
      forall n | 0 <= n < |L| ensures Fits(L[n], width) {
        LayerShape(base, fan, k - 1, n);
      }
    }
  }

  /**
   * The first n write gates set fan[j] ^= b AND fan[j - half] for j in
   * [half, half + n), and change nothing outside fan[half..half + n).
   */
  lemma {:induction false} WriteEffect(b: nat, fan: seq<nat>, r: seq<bool>, half: nat, n: nat)
    requires n <= half && 2 * half <= |fan| && Distinct(fan) && Outside(b, fan, 0, |fan|)
    requires b < |r| && InRange(fan, |r|)
    ensures AllFit(WriteLayer(b, fan, half, n), |r|)
    ensures forall j {:trigger Apply(WriteLayer(b, fan, half, n), r)[fan[j]]} :: half <= j < half + n ==>
              Apply(WriteLayer(b, fan, half, n), r)[fan[j]] == (r[fan[j]] != (r[b] && r[fan[j - half]]))
    ensures forall q {:trigger Apply(WriteLayer(b, fan, half, n), r)[q]} :: 0 <= q < |r| && Outside(q, fan, half, half + n) ==>
              Apply(WriteLayer(b, fan, half, n), r)[q] == r[q]
    decreases n
  {
    if n > 0 {
      WriteEffect(b, fan, r, half, n - 1);
      var prev := Apply(WriteLayer(b, fan, half, n - 1), r);
      var t := fan[half + n - 1];
      assert prev[b] == r[b] by {
        assert Outside(b, fan, half, half + n - 1);
      }
      assert prev[fan[n - 1]] == r[fan[n - 1]] by {
        assert Outside(fan[n - 1], fan, half, half + n - 1);
      }
      assert prev[t] == r[t] by {
        assert Outside(t, fan, half, half + n - 1);
      }
      var next := Apply(WriteLayer(b, fan, half, n), r);
      assert next == prev[t := r[t] != (r[b] && r[fan[n - 1]])];
      forall j | half <= j < half + n
        ensures next[fan[j]] == (r[fan[j]] != (r[b] && r[fan[j - half]]))
      {
        if j < half + n - 1 {
          assert fan[j] != t;
        }
      }
      forall q | 0 <= q < |r| && Outside(q, fan, half, half + n)
        ensures next[q] == r[q]
      {
        assert Outside(q, fan, half, half + n - 1) && q != t;
      }
    }
  }

  /**
   * The first n correct gates set fan[a] ^= fan[half + a] for a < n, and
   * change nothing outside fan[0..n).
   */
  lemma {:induction false} CorrectEffect(fan: seq<nat>, r: seq<bool>, half: nat, n: nat)
    requires n <= half && 2 * half <= |fan| && Distinct(fan) && InRange(fan, |r|)
    ensures AllFit(CorrectLayer(fan, half, n), |r|)
    ensures forall a {:trigger Apply(CorrectLayer(fan, half, n), r)[fan[a]]} :: 0 <= a < n ==>
              Apply(CorrectLayer(fan, half, n), r)[fan[a]] == (r[fan[a]] != r[fan[half + a]])
    ensures forall q {:trigger Apply(CorrectLayer(fan, half, n), r)[q]} :: 0 <= q < |r| && Outside(q, fan, 0, n) ==>
              Apply(CorrectLayer(fan, half, n), r)[q] == r[q]
    decreases n
  {
    if n > 0 {
      CorrectEffect(fan, r, half, n - 1);
      var prev := Apply(CorrectLayer(fan, half, n - 1), r);
      var t := fan[n - 1];
      assert prev[fan[half + n - 1]] == r[fan[half + n - 1]] by {
        assert Outside(fan[half + n - 1], fan, 0, n - 1);
      }
      assert prev[t] == r[t] by {
        assert Outside(t, fan, 0, n - 1);
      }
      var next := Apply(CorrectLayer(fan, half, n), r);
      assert next == prev[t := r[t] != r[fan[half + n - 1]]];
      forall a | 0 <= a < n
        ensures next[fan[a]] == (r[fan[a]] != r[fan[half + a]])
      {
        if a < n - 1 {
          assert fan[a] != t;
        }
      }
      forall q | 0 <= q < |r| && Outside(q, fan, 0, n)
        ensures next[q] == r[q]
      {
        assert Outside(q, fan, 0, n - 1) && q != t;
      }
    }
  }

  /**
   * One doubling step: if fan[0..p) is one-hot at v and fan[p..2p) is
   * clear, then afterwards fan[0..2p) is one-hot at v + b * p, and no qubit
   * outside fan[0..2p) changes.
   */
  lemma LayerEffect(b: nat, fan: seq<nat>, r: seq<bool>, p: nat, v: nat)
    requires 2 * p <= |fan| && Distinct(fan) && Outside(b, fan, 0, |fan|)
    requires b < |r| && InRange(fan, |r|) && v < p
    requires forall j :: 0 <= j < p ==> r[fan[j]] == (j == v)
    requires forall j :: p <= j < 2 * p ==> !r[fan[j]]
    ensures AllFit(WriteLayer(b, fan, p, p) + CorrectLayer(fan, p, p), |r|)
    ensures forall j {:trigger Apply(WriteLayer(b, fan, p, p) + CorrectLayer(fan, p, p), r)[fan[j]]} :: 0 <= j < 2 * p ==>
              Apply(WriteLayer(b, fan, p, p) + CorrectLayer(fan, p, p), r)[fan[j]] == (j == v + (if r[b] then p else 0))
    ensures forall q {:trigger Apply(WriteLayer(b, fan, p, p) + CorrectLayer(fan, p, p), r)[q]} :: 0 <= q < |r| && Outside(q, fan, 0, 2 * p) ==>
              Apply(WriteLayer(b, fan, p, p) + CorrectLayer(fan, p, p), r)[q] == r[q]
  {
    LayerKeeps(b, fan, r, p);
    LayerOneHot(b, fan, r, p, v);
  }

  /** A doubling step changes no qubit outside fan[0..2p). */
  lemma LayerKeeps(b: nat, fan: seq<nat>, r: seq<bool>, p: nat)
    requires 2 * p <= |fan| && Distinct(fan) && Outside(b, fan, 0, |fan|)
    requires b < |r| && InRange(fan, |r|)
    ensures AllFit(WriteLayer(b, fan, p, p) + CorrectLayer(fan, p, p), |r|)
    ensures forall q {:trigger Apply(WriteLayer(b, fan, p, p) + CorrectLayer(fan, p, p), r)[q]} :: 0 <= q < |r| && Outside(q, fan, 0, 2 * p) ==>
              Apply(WriteLayer(b, fan, p, p) + CorrectLayer(fan, p, p), r)[q] == r[q]
  {
    var W, C := WriteLayer(b, fan, p, p), CorrectLayer(fan, p, p);
    WriteEffect(b, fan, r, p, p);
    var r2 := Apply(W, r);
    CorrectEffect(fan, r2, p, p);
    ApplyConcat(W, C, r);
    forall q | 0 <= q < |r| && Outside(q, fan, 0, 2 * p) ensures Apply(C, r2)[q] == r[q] {
      assert Outside(q, fan, 0, p) && Outside(q, fan, p, 2 * p);
    }
  }

  /** A doubling step moves the one-hot bit from v to v + p exactly when b is set. */
  lemma LayerOneHot(b: nat, fan: seq<nat>, r: seq<bool>, p: nat, v: nat)
    requires 2 * p <= |fan| && Distinct(fan) && Outside(b, fan, 0, |fan|)
    requires b < |r| && InRange(fan, |r|) && v < p
    requires forall j :: 0 <= j < p ==> r[fan[j]] == (j == v)
    requires forall j :: p <= j < 2 * p ==> !r[fan[j]]
    ensures AllFit(WriteLayer(b, fan, p, p) + CorrectLayer(fan, p, p), |r|)
    ensures forall j {:trigger Apply(WriteLayer(b, fan, p, p) + CorrectLayer(fan, p, p), r)[fan[j]]} :: 0 <= j < 2 * p ==>
              Apply(WriteLayer(b, fan, p, p) + CorrectLayer(fan, p, p), r)[fan[j]] == (j == v + (if r[b] then p else 0))
  {
    var W, C := WriteLayer(b, fan, p, p), CorrectLayer(fan, p, p);
    WriteEffect(b, fan, r, p, p);
    var r2 := Apply(W, r);
    CorrectEffect(fan, r2, p, p);
    ApplyConcat(W, C, r);
    var r3 := Apply(C, r2);
    forall j | 0 <= j < p ensures r2[fan[j]] == r[fan[j]] {
      assert Outside(fan[j], fan, p, 2 * p);
    }
    forall j | p <= j < 2 * p ensures r3[fan[j]] == r2[fan[j]] {
      assert Outside(fan[j], fan, 0, p);
    }
    DoubledOneHot(fan, b, r, r2, r3, p, v);
  }

  /**
   * The bit arithmetic of a doubling step: with fan[0..p) one-hot at v and
   * fan[p..2p) clear, writing b AND fan[j] into fan[p + j] and then xoring
   * fan[p + j] back into fan[j] leaves fan[0..2p) one-hot at v, or at v + p
   * when b is set.
   */
  lemma DoubledOneHot(fan: seq<nat>, b: nat, r: seq<bool>, r2: seq<bool>, r3: seq<bool>, p: nat, v: nat)
    requires 2 * p <= |fan| && b < |r| && InRange(fan, |r|) && |r2| == |r| && |r3| == |r| && v < p
    requires forall j :: 0 <= j < p ==> r[fan[j]] == (j == v)
    requires forall j :: p <= j < 2 * p ==> !r[fan[j]]
    requires forall j :: 0 <= j < p ==> r2[fan[j]] == r[fan[j]]
    requires forall j :: p <= j < 2 * p ==> r2[fan[j]] == (r[fan[j]] != (r[b] && r[fan[j - p]]))
    requires forall j :: 0 <= j < p ==> r3[fan[j]] == (r2[fan[j]] != r2[fan[p + j]])
    requires forall j :: p <= j < 2 * p ==> r3[fan[j]] == r2[fan[j]]
    ensures forall j :: 0 <= j < 2 * p ==> r3[fan[j]] == (j == v + (if r[b] then p else 0))
  {
    forall j | 0 <= j < 2 * p ensures r3[fan[j]] == (j == v + (if r[b] then p else 0)) {
      if j < p {
        assert r2[fan[p + j]] == (r[b] && r[fan[j]]);
      } else {
        assert r[fan[j - p]] == (j - p == v) && !r[fan[j]];
      }
    }
  }

  /** The first base bit: fan[0] ends up holding "base[0] = 0" and fan[1] "base[0] = 1". */
  lemma FirstEffect(base: seq<nat>, fan: seq<nat>, s: seq<bool>)
    requires 1 <= |base| && 2 <= |fan| && fan[0] != fan[1] && base[0] != fan[0] && base[0] != fan[1]
    requires base[0] < |s| && fan[0] < |s| && fan[1] < |s| && !s[fan[0]] && !s[fan[1]]
    ensures AllFit(FirstGates(base, fan), |s|)
    ensures Apply(FirstGates(base, fan), s)[fan[0]] == !s[base[0]]
    ensures Apply(FirstGates(base, fan), s)[fan[1]] == s[base[0]]
    ensures forall q :: 0 <= q < |s| && q != fan[0] && q != fan[1] ==> Apply(FirstGates(base, fan), s)[q] == s[q]
  {
    var gs := FirstGates(base, fan);
    assert gs[..2] == [gs[0], gs[1]] && gs[..2][..1] == [gs[0]] && [gs[0]][..0] == [];
    var s1 := Step(gs[0], s);
    var s2 := Step(gs[1], s1);
    assert Apply([gs[0]], s) == s1;
    assert Apply(gs[..2], s) == s2;
    assert Apply(gs, s) == Step(gs[2], s2);
  }

  /** Gate n of the doubling step for base bit i: a write gate for n < 2^i, a correct gate after. */
  lemma LayerShape(base: seq<nat>, fan: seq<nat>, i: nat, n: nat)
    requires i < |base| && Pow2(i + 1) <= |fan| && n < 2 * Pow2(i)
    ensures |Layer(base, fan, i)| == 2 * Pow2(i)
    ensures Layer(base, fan, i)[n] ==
              if n < Pow2(i) then CCX(base[i], fan[n], fan[Pow2(i) + n]) else CX(fan[n], fan[n - Pow2(i)])
  {
    var p := Pow2(i);
    if n < p {
      WriteLayerAt(base[i], fan, p, p, n);
    } else {
      CorrectLayerAt(fan, p, p, n - p);
    }
  }

  /** Write gate m is CCX(b, fan[m], fan[half + m]). */
  lemma {:induction false} WriteLayerAt(b: nat, fan: seq<nat>, half: nat, n: nat, m: nat)
    requires m < n <= half && 2 * half <= |fan|
    ensures WriteLayer(b, fan, half, n)[m] == CCX(b, fan[m], fan[half + m])
    decreases n
  {
    if m < n - 1 {
      WriteLayerAt(b, fan, half, n - 1, m);
    }
  }

  /** Correct gate m is CX(fan[half + m], fan[m]). */
  lemma {:induction false} CorrectLayerAt(fan: seq<nat>, half: nat, n: nat, m: nat)
    requires m < n <= half && 2 * half <= |fan|
    ensures CorrectLayer(fan, half, n)[m] == CX(fan[half + m], fan[m])
    decreases n
  {
    if m < n - 1 {
      CorrectLayerAt(fan, half, n - 1, m);
    }
  }

  /** The first k base bits target only fan[0..2^k): base and fan[2^k..) are never changed. */
  lemma {:induction false} FanTargets(base: seq<nat>, fan: seq<nat>, k: nat)
    requires 1 <= k <= |base| && Pow2(k) <= |fan|
    ensures forall q {:trigger Untargeted(FanGates(base, fan, k), q)} ::
              Outside(q, fan, 0, Pow2(k)) ==> Untargeted(FanGates(base, fan, k), q)
    decreases k
  {
    if k > 1 {
      var i := k - 1;
      var p := Pow2(i);
      FanTargets(base, fan, i);
      var g1, L := FanGates(base, fan, i), Layer(base, fan, i);
      assert FanGates(base, fan, k) == g1 + L;
      forall q | Outside(q, fan, 0, 2 * p) ensures Untargeted(g1 + L, q) {
        assert Outside(q, fan, 0, p) && Untargeted(g1, q);
        forall n | 0 <= n < |g1 + L| ensures (g1 + L)[n].t != q {
          if n >= |g1| {
            LayerShape(base, fan, i, n - |g1|);
          }
        }
      }
    }
  }

  /** The first k base bits read only base[0..k) and fan[0..2^k). */
  lemma {:induction false} FanReads(base: seq<nat>, fan: seq<nat>, k: nat)
    requires 1 <= k <= |base| && Pow2(k) <= |fan|
    ensures forall q {:trigger Unread(FanGates(base, fan, k), q)} ::
              Outside(q, fan, 0, Pow2(k)) && Outside(q, base, 0, k) ==> Unread(FanGates(base, fan, k), q)
    decreases k
  {
    if k > 1 {
      var i := k - 1;
      var p := Pow2(i);
      FanReads(base, fan, i);
      var g1, L := FanGates(base, fan, i), Layer(base, fan, i);
      assert FanGates(base, fan, k) == g1 + L;
      forall q | Outside(q, fan, 0, 2 * p) && Outside(q, base, 0, k) ensures Unread(g1 + L, q) {
        assert Outside(q, fan, 0, p) && Outside(q, base, 0, i) && Unread(g1, q);
        forall n | 0 <= n < |g1 + L| ensures q !in Controls((g1 + L)[n]) {
          if n >= |g1| {
            LayerShape(base, fan, i, n - |g1|);
          }
        }
      }
    }
  }

  /** Every operand of the gates of the first k base bits is one of fan[0..2^k) or base[0..k). */
  lemma FanOperands(base: seq<nat>, fan: seq<nat>, k: nat, n: nat, q: nat)
    requires 1 <= k <= |base| && Pow2(k) <= |fan|
    requires n < |FanGates(base, fan, k)| && q in Operands(FanGates(base, fan, k)[n])
    ensures q in fan[..Pow2(k)] || q in base[..k]
  {
    FanTargets(base, fan, k);
    FanReads(base, fan, k);
    var gs := FanGates(base, fan, k);
    assert gs[n].t == q || q in Controls(gs[n]);
    assert !Untargeted(gs, q) || !Unread(gs, q);
    if !Outside(q, fan, 0, Pow2(k)) {
      var a :| 0 <= a < Pow2(k) && fan[a] == q;
      assert fan[..Pow2(k)][a] == q;
    } else {
      assert !Outside(q, base, 0, k);
      var a :| 0 <= a < k && base[a] == q;
      assert base[..k][a] == q;
    }
  }

  /**
   * The state after the first k base bits, from a clear fan: fan[0..2^k)
   * is one-hot at the value of base[0..k).
   */
  lemma {:induction false} FanPrefixEffect(base: seq<nat>, fan: seq<nat>, s: seq<bool>, k: nat)
    requires FanRegisters(base, fan) && InRange(base, |s|) && InRange(fan, |s|)
    requires forall j :: 0 <= j < |fan| ==> !s[fan[j]]
    requires 1 <= k <= |base|
    ensures Pow2(k) <= |fan| && AllFit(FanGates(base, fan, k), |s|)
    ensures forall j {:trigger Apply(FanGates(base, fan, k), s)[fan[j]]} :: 0 <= j < Pow2(k) ==>
              Apply(FanGates(base, fan, k), s)[fan[j]] == (j == RegisterValue(s, base[..k]))
    decreases k
  {
    Pow2Monotone(k, |base|);
    FanGatesFit(base, fan, k, |s|);
    if k == 1 {
      assert Outside(base[0], fan, 0, |fan|);
      FirstPrefixEffect(base, fan, s);
      assert Pow2(1) == 2;
    } else {
      var i := k - 1;
      FanPrefixEffect(base, fan, s, i);
      FanUpperClear(base, fan, s, i);
      FanPrefixStep(base, fan, s, k);
    }
  }

  /** The doubling step for base bit k - 1 turns the one-hot fan[0..2^(k-1)) into the one-hot fan[0..2^k). */
  lemma FanPrefixStep(base: seq<nat>, fan: seq<nat>, s: seq<bool>, k: nat)
    requires FanRegisters(base, fan) && InRange(base, |s|) && InRange(fan, |s|)
    requires 2 <= k <= |base| && Pow2(k) <= |fan| && AllFit(FanGates(base, fan, k - 1), |s|)
    requires forall j :: 0 <= j < Pow2(k - 1) ==> Apply(FanGates(base, fan, k - 1), s)[fan[j]] == (j == RegisterValue(s, base[..k - 1]))
    requires forall j :: Pow2(k - 1) <= j < 2 * Pow2(k - 1) ==> !Apply(FanGates(base, fan, k - 1), s)[fan[j]]
    requires Apply(FanGates(base, fan, k - 1), s)[base[k - 1]] == s[base[k - 1]]
    ensures AllFit(FanGates(base, fan, k), |s|)
    ensures forall j {:trigger Apply(FanGates(base, fan, k), s)[fan[j]]} :: 0 <= j < Pow2(k) ==>
              Apply(FanGates(base, fan, k), s)[fan[j]] == (j == RegisterValue(s, base[..k]))
  {
    var i := k - 1;
    var p := Pow2(i);
    var g1 := FanGates(base, fan, i);
    var r1 := Apply(g1, s);
    var v := RegisterValue(s, base[..i]);
    ValueOfBound(Read(s, base[..i]));
    assert Outside(base[i], fan, 0, |fan|);
    LayerEffect(base[i], fan, r1, p, v);
    ApplyConcat(g1, Layer(base, fan, i), s);
    FanGatesSnoc(base, fan, i);
    RegisterValueSnoc(s, base, i);
  }

  /** After the first base bit, fan[0..2) is one-hot at the value of base[0]. */
  lemma FirstPrefixEffect(base: seq<nat>, fan: seq<nat>, s: seq<bool>)
    requires 1 <= |base| && 2 <= |fan| && fan[0] != fan[1] && base[0] != fan[0] && base[0] != fan[1]
    requires InRange(base, |s|) && fan[0] < |s| && fan[1] < |s| && !s[fan[0]] && !s[fan[1]]
    ensures forall j {:trigger Apply(FanGates(base, fan, 1), s)[fan[j]]} :: 0 <= j < 2 ==>
              Apply(FanGates(base, fan, 1), s)[fan[j]] == (j == RegisterValue(s, base[..1]))
  {
    FirstEffect(base, fan, s);
    var r := Apply(FanGates(base, fan, 1), s);
    assert r == Apply(FirstGates(base, fan), s);
    var v := RegisterValue(s, base[..1]);
    assert Read(s, base[..1]) == [s[base[0]]];
    ValueOfSingle(s[base[0]]);
    assert Pow2(1) == 2;
    assert |r| == |s|;
    forall j | 0 <= j < 2 ensures r[fan[j]] == (j == v) {
      if j == 1 {
        assert r[fan[1]] == (v == 1);
      } else {
        assert r[fan[0]] == (v == 0);
      }
    }
  }

  /**
   * The gates of the first i base bits leave fan[2^i..2^(i+1)) at zero and
   * base[i] as it was: what the doubling step for base bit i expects.
   */
  lemma FanUpperClear(base: seq<nat>, fan: seq<nat>, s: seq<bool>, i: nat)
    requires FanRegisters(base, fan) && InRange(base, |s|) && InRange(fan, |s|)
    requires forall j :: 0 <= j < |fan| ==> !s[fan[j]]
    requires 1 <= i < |base|
    ensures Pow2(i + 1) <= |fan| && AllFit(FanGates(base, fan, i), |s|)
    ensures forall j {:trigger fan[j]} :: Pow2(i) <= j < 2 * Pow2(i) ==> !Apply(FanGates(base, fan, i), s)[fan[j]]
    ensures Apply(FanGates(base, fan, i), s)[base[i]] == s[base[i]]
  {
    Pow2Monotone(i + 1, |base|);
    FanGatesFit(base, fan, i, |s|);
    FanTargets(base, fan, i);
    var g1 := FanGates(base, fan, i);
    var p := Pow2(i);
    forall j | p <= j < 2 * p ensures !Apply(g1, s)[fan[j]] {
      assert Outside(fan[j], fan, 0, p) && Untargeted(g1, fan[j]);
      Untouched(g1, s, fan[j]);
    }
    assert Outside(base[i], fan, 0, |fan|);
    assert Outside(base[i], fan, 0, p) && Untargeted(g1, base[i]);
    Untouched(g1, s, base[i]);
  }

  /**
   * one_hot_fan from a clear fan: afterwards exactly the fan qubit at the
   * value of base (base[0] least significant) is set, every other fan qubit
   * is clear, and every qubit outside fan, base included, is unchanged.
   */
  lemma OneHotFanEncodes(base: seq<nat>, fan: seq<nat>, s: seq<bool>)
    requires FanRegisters(base, fan) && InRange(base, |s|) && InRange(fan, |s|)
    requires forall j :: 0 <= j < |fan| ==> !s[fan[j]]
    ensures AllFit(OneHotFanGates(base, fan), |s|)
    ensures RegisterValue(s, base) < |fan|
    ensures forall j :: 0 <= j < |fan| ==> Apply(OneHotFanGates(base, fan), s)[fan[j]] == (j == RegisterValue(s, base))
    ensures forall q :: 0 <= q < |s| && q !in fan ==> Apply(OneHotFanGates(base, fan), s)[q] == s[q]
  {
    var n := |base|;
    FanPrefixEffect(base, fan, s, n);
    OneHotFanKeeps(base, fan, s);
    var v := RegisterValue(s, base);
    assert base[..n] == base;
    assert RegisterValue(s, base[..n]) == v;
    ValueOfBound(Read(s, base));
    assert v < Pow2(n);
  }

  /** one_hot_fan targets only fan[0..2^n): the rest of fan stays clear and no other qubit changes. */
  lemma OneHotFanKeeps(base: seq<nat>, fan: seq<nat>, s: seq<bool>)
    requires FanRegisters(base, fan) && InRange(base, |s|) && InRange(fan, |s|)
    requires forall j :: 0 <= j < |fan| ==> !s[fan[j]]
    ensures AllFit(OneHotFanGates(base, fan), |s|)
    ensures forall j :: Pow2(|base|) <= j < |fan| ==> !Apply(OneHotFanGates(base, fan), s)[fan[j]]
    ensures forall q :: 0 <= q < |s| && q !in fan ==> Apply(OneHotFanGates(base, fan), s)[q] == s[q]
  {
    var n := |base|;
    FanGatesFit(base, fan, n, |s|);
    FanTargets(base, fan, n);
    var gs := OneHotFanGates(base, fan);
    var r := Apply(gs, s);
    forall j | Pow2(n) <= j < |fan| ensures !r[fan[j]] {
      assert Outside(fan[j], fan, 0, Pow2(n)) && Untargeted(gs, fan[j]);
      Untouched(gs, s, fan[j]);
    }
    forall q | 0 <= q < |s| && q !in fan ensures r[q] == s[q] {
      assert Outside(q, fan, 0, Pow2(n)) && Untargeted(gs, q);
      Untouched(gs, s, q);
    }
  }
}
