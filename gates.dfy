/**
 * The classical action of the three gate kinds the layout helpers emit.
 * On a computational-basis state every one of them is a bit operation:
 * X flips its target, CX xors its control into its target, and CCX xors
 * the AND of its two controls into its target. A state is a bit vector
 * indexed by qubit number.
 */
module Gates {

  /** A gate over integer qubit indices; `t` is the target of every kind. */
  datatype Gate = X(t: nat) | CX(c: nat, t: nat) | CCX(c1: nat, c2: nat, t: nat)

  /** The qubits a gate reads without changing them. */
  function Controls(g: Gate): set<nat> {
    match g
    case X(_) => {}
    case CX(c, _) => {c}
    case CCX(c1, c2, _) => {c1, c2}
  }

  /** Every qubit the gate acts on. */
  function Operands(g: Gate): set<nat> {
    Controls(g) + {g.t}
  }

  /** The operands are pairwise different, as the circuit framework demands. */
  predicate Proper(g: Gate) {
    g.t !in Controls(g) && (g.CCX? ==> g.c1 != g.c2)
  }

  /** Every operand of `g` is a qubit of a `width`-qubit state. */
  predicate Fits(g: Gate, width: nat) {
    match g
    case X(t) => t < width
    case CX(c, t) => c < width && t < width
    case CCX(c1, c2, t) => c1 < width && c2 < width && t < width
  }

  predicate AllFit(gs: seq<Gate>, width: nat) {
    forall i :: 0 <= i < |gs| ==> Fits(gs[i], width)
  }

  /** No gate of `gs` changes qubit q. */
  predicate Untargeted(gs: seq<Gate>, q: nat) {
    forall i :: 0 <= i < |gs| ==> gs[i].t != q
  }

  /** No gate of `gs` reads qubit q as a control. */
  predicate Unread(gs: seq<Gate>, q: nat) {
    forall i :: 0 <= i < |gs| ==> q !in Controls(gs[i])
  }

  /** Whether `g` flips its target in state `s`. */
  function Fires(g: Gate, s: seq<bool>): bool
    requires Fits(g, |s|)
  {
    match g
    case X(_) => true
    case CX(c, _) => s[c]
    case CCX(c1, c2, _) => s[c1] && s[c2]
  }

  function Step(g: Gate, s: seq<bool>): seq<bool>
    requires Fits(g, |s|)
  {
    s[g.t := s[g.t] != Fires(g, s)]
  }

  /** The state reached by applying the gates of `gs` to `s` in order. */
  function Apply(gs: seq<Gate>, s: seq<bool>): (r: seq<bool>)
    requires AllFit(gs, |s|)
    ensures |r| == |s|
    decreases |gs|
  {
    if gs == [] then s else Step(gs[|gs| - 1], Apply(gs[..|gs| - 1], s))
  }

  /** Applying a concatenation is applying its halves one after the other. */
  lemma {:induction false} ApplyConcat(a: seq<Gate>, b: seq<Gate>, s: seq<bool>)
    requires AllFit(a, |s|) && AllFit(b, |s|)
    ensures AllFit(a + b, |s|) && Apply(a + b, s) == Apply(b, Apply(a, s))
    decreases |b|
  {
    if b == [] {
      assert a + b == a;
    } else {
      var front := b[..|b| - 1];
      ApplyConcat(a, front, s);
      assert (a + b)[..|a + b| - 1] == a + front;
      assert (a + b)[|a + b| - 1] == b[|b| - 1];
    }
  }

  /** A qubit that no gate targets keeps its value. */
  lemma {:induction false} Untouched(gs: seq<Gate>, s: seq<bool>, q: nat)
    requires AllFit(gs, |s|) && q < |s| && Untargeted(gs, q)
    ensures Apply(gs, s)[q] == s[q]
    decreases |gs|
  {
    if gs != [] {
      Untouched(gs[..|gs| - 1], s, q);
    }
  }
}
