/** The verifiable delay function (vdf/src/vdf.rs): repeated squaring and its halving proof. */
module Vdf {
  import opened Powers

  /** The Fiat-Shamir challenge `hash_fs`; nothing is known about it. */
  type Challenge = (int, int, int) -> nat

  // ---- Specifications of eval, prove and verify ----

  function EvalSpec(g: int, t: nat, n: nat): int
    requires n > 1
  {
    if t == 0 then g else var y := EvalSpec(g, t - 1, n); y * y % n
  }

  datatype Claim = Claim(x: int, y: int, t: nat)

  /** Folds the claim "`y` is `x` squared `t` times" and its midpoint `mu` into one about half of `t`. */
  function Halve(c: Claim, mu: int, n: nat, h: Challenge): Claim
    requires n > 1
  {
    var r := h(c.x, c.y, mu);
    var x := PowMod(c.x, r, n) * mu % n;
    var y := PowMod(mu, r, n) * c.y % n;
    var t := c.t / 2;
    if t % 2 != 0 && t != 1 then Claim(x, PowMod(y, 2, n), t + 1) else Claim(x, y, t)
  }

  function Midpoint(c: Claim, n: nat): int
    requires n > 1
  {
    Pow2Positive(c.t / 2);
    PowMod(c.x, Pow(2, c.t / 2), n)
  }

  function ProveSpec(c: Claim, n: nat, h: Challenge): seq<int>
    requires n > 1
    decreases c.t
  {
    if c.t < 2 then []
    else var mu := Midpoint(c, n); [mu] + ProveSpec(Halve(c, mu, n, h), n, h)
  }

  predicate VerifySpec(c: Claim, proof: seq<int>, n: nat, h: Challenge)
    requires n > 1
    decreases |proof|
  {
    if proof == [] then c.y == PowMod(c.x, 2, n)
    else VerifySpec(Halve(c, proof[0], n, h), proof[1..], n, h)
  }

  // ---- The code ----

  method Eval(g: int, t: nat, n: nat) returns (y: int)
    requires n > 1
    ensures y == EvalSpec(g, t, n)
  {
    y := g;
    for i := 0 to t
      invariant y == EvalSpec(g, i, n)
    {
      y := y * y;
      y := y % n;
    }
  }

  method Prove(g: int, y: int, iterations: nat, n: nat, h: Challenge) returns (proof: seq<int>)
    requires n > 1
    ensures proof == ProveSpec(Claim(g, y, iterations), n, h)
    ensures exists tr :: IsTranscript(Claim(g, y, iterations), proof, n, h, tr) && HasMidpoints(tr, proof, n)
  {
    var xi, yi, t := g, y, iterations;
    proof := [];
    while t >= 2
      invariant proof + ProveSpec(Claim(xi, yi, t), n, h) == ProveSpec(Claim(g, y, iterations), n, h)
      decreases t
    {
      ghost var c := Claim(xi, yi, t);
      Pow2Positive(t / 2);
      var mu := PowMod(xi, Pow(2, t / 2), n);
      xi, yi, t := Fold(xi, yi, t, mu, n, h);
      assert proof + ([mu] + ProveSpec(Claim(xi, yi, t), n, h)) == proof + [mu] + ProveSpec(Claim(xi, yi, t), n, h);
      proof := proof + [mu];
    }
    assert ProveSpec(Claim(xi, yi, t), n, h) == [];
    ghost var tr := TranscriptOf(Claim(g, y, iterations), proof, n, h);
    Midpoints(Claim(g, y, iterations), proof, n, h, tr, 0);
  }

  method Verify(g: int, y: int, iterations: nat, proof: seq<int>, n: nat, h: Challenge) returns (ok: bool)
    requires n > 1
    ensures ok == VerifySpec(Claim(g, y, iterations), proof, n, h)
    ensures ok <==> exists tr :: IsTranscript(Claim(g, y, iterations), proof, n, h, tr) && tr.Closes(n)
  {
    VerifyTranscript(Claim(g, y, iterations), proof, n, h);
    var xi, yi, t := g, y, iterations;
    for i := 0 to |proof|
      invariant t >= 0
      invariant VerifySpec(Claim(xi, yi, t), proof[i..], n, h) == VerifySpec(Claim(g, y, iterations), proof, n, h)
    {
      assert proof[i..][1..] == proof[i + 1..];
      xi, yi, t := Fold(xi, yi, t, proof[i], n, h);
    }
    ok := yi == PowMod(xi, 2, n);
  }

  /** The part of the loops that prover and verifier share. */
  method Fold(x: int, y: int, count: nat, mu: int, n: nat, h: Challenge) returns (xi: int, yi: int, t: nat)
    requires n > 1
    ensures Claim(xi, yi, t) == Halve(Claim(x, y, count), mu, n, h)
  {
    var r := h(x, y, mu);
    xi := PowMod(x, r, n) * mu % n;
    yi := PowMod(mu, r, n) * y % n;
    t := count / 2;
    if t % 2 != 0 && t != 1 {
      t := t + 1;
      yi := PowMod(yi, 2, n);
    }
  }

  // ---- Transcripts ----

  /** The values that prover and verifier keep, before every round and after the last one. */
  datatype Transcript = Transcript(xs: seq<int>, ys: seq<int>, ts: seq<nat>) {
    ghost predicate Covers(proof: seq<int>) {
      |xs| == |ys| == |ts| == |proof| + 1
    }

    /** The last `y` is the last `x` squared. */
    ghost predicate Closes(n: nat)
      requires n > 1
    {
      && |xs| == |ys| > 0
      && ys[|ys| - 1] == Pow(xs[|xs| - 1], 2) % n
    }

    function At(i: nat): Claim
      requires i < |xs| && i < |ys| && i < |ts|
    {
      Claim(xs[i], ys[i], ts[i])
    }
  }

  /** Round `i`: the challenge is drawn from both values and the midpoint, and an odd half is made even. */
  ghost predicate RoundAt(tr: Transcript, proof: seq<int>, n: nat, h: Challenge, i: nat)
    requires n > 1 && tr.Covers(proof) && i < |proof|
  {
    var mu, half := proof[i], tr.ts[i] / 2;
    var r := h(tr.xs[i], tr.ys[i], mu);
    && tr.xs[i + 1] == Pow(tr.xs[i], r) * mu % n
    && if half % 2 == 1 && half > 1 then
         tr.ts[i + 1] == half + 1 && tr.ys[i + 1] == Pow(Pow(mu, r) * tr.ys[i], 2) % n
       else
         tr.ts[i + 1] == half && tr.ys[i + 1] == Pow(mu, r) * tr.ys[i] % n
  }

  ghost predicate IsTranscript(c: Claim, proof: seq<int>, n: nat, h: Challenge, tr: Transcript)
    requires n > 1
  {
    && tr.Covers(proof) && tr.xs[0] == c.x && tr.ys[0] == c.y && tr.ts[0] == c.t
    && forall i :: 0 <= i < |proof| ==> RoundAt(tr, proof, n, h, i)
  }

  /** Every element of an honest proof is the base of its round, squared half as often as the round claims. */
  ghost predicate HasMidpoints(tr: Transcript, proof: seq<int>, n: nat)
    requires n > 1
  {
    && tr.Covers(proof) && tr.ts[|proof|] < 2
    && forall i :: 0 <= i < |proof| ==> MidpointAt(tr, proof, n, i)
  }

  ghost predicate MidpointAt(tr: Transcript, proof: seq<int>, n: nat, i: nat)
    requires n > 1 && tr.Covers(proof) && i < |proof|
  {
    tr.ts[i] >= 2 && proof[i] == Pow(tr.xs[i], Pow2(tr.ts[i] / 2)) % n
  }

  /** The remainder of a product whose first factor is reduced already. */
  lemma ReducedFactor(a: int, b: int, n: nat)
    requires n > 1
    ensures a % n * b % n == a * b % n
  {
    CongMod(a, n);
    CongMul(a % n, a, b, b, n);
  }

  /** What one halving computes, without the remainders in between. */
  lemma HalveIs(c: Claim, mu: int, n: nat, h: Challenge)
    requires n > 1
    ensures var d, r, half := Halve(c, mu, n, h), h(c.x, c.y, mu), c.t / 2;
            && d.x == Pow(c.x, r) * mu % n
            && if half % 2 == 1 && half > 1 then d.t == half + 1 && d.y == Pow(Pow(mu, r) * c.y, 2) % n
               else d.t == half && d.y == Pow(mu, r) * c.y % n
  {
    var r := h(c.x, c.y, mu);
    ReducedFactor(Pow(c.x, r), mu, n);
    ReducedFactor(Pow(mu, r), c.y, n);
    var y := Pow(mu, r) * c.y;
    CongMod(y, n);
    CongPow(y % n, y, 2, n);
  }

  lemma RoundHalves(tr: Transcript, proof: seq<int>, n: nat, h: Challenge, i: nat)
    requires n > 1 && tr.Covers(proof) && i < |proof|
    ensures RoundAt(tr, proof, n, h, i) <==> tr.At(i + 1) == Halve(tr.At(i), proof[i], n, h)
  {
    HalveIs(tr.At(i), proof[i], n, h);
  }

  /** There is a transcript for every claim and every proof, honest or not. */
  lemma {:induction false} TranscriptOf(c: Claim, proof: seq<int>, n: nat, h: Challenge) returns (tr: Transcript)
    requires n > 1
    ensures IsTranscript(c, proof, n, h, tr)
    decreases |proof|
  {
    if proof == [] {
      tr := Transcript([c.x], [c.y], [c.t]);
    } else {
      var rest := TranscriptOf(Halve(c, proof[0], n, h), proof[1..], n, h);
      tr := Transcript([c.x] + rest.xs, [c.y] + rest.ys, [c.t] + rest.ts);
      forall i | 0 <= i < |proof| ensures RoundAt(tr, proof, n, h, i) {
        RoundHalves(tr, proof, n, h, i);
        if i > 0 {
          assert RoundAt(rest, proof[1..], n, h, i - 1);
        }
      }
    }
  }

  /** From any round on, the verifier's answer is whether the transcript closes. */
  lemma {:induction false} VerifyCloses(c: Claim, proof: seq<int>, n: nat, h: Challenge, tr: Transcript, k: nat)
    requires n > 1 && IsTranscript(c, proof, n, h, tr) && k <= |proof|
    ensures VerifySpec(tr.At(k), proof[k..], n, h) <==> tr.Closes(n)
    decreases |proof| - k
  {
    if k < |proof| {
      RoundHalves(tr, proof, n, h, k);
      VerifyCloses(c, proof, n, h, tr, k + 1);
      assert proof[k..][1..] == proof[k + 1..];
    }
  }

  /** `verify` accepts exactly the proofs, honest or not, whose transcript closes. */
  lemma VerifyTranscript(c: Claim, proof: seq<int>, n: nat, h: Challenge)
    requires n > 1
    ensures VerifySpec(c, proof, n, h) <==> exists tr :: IsTranscript(c, proof, n, h, tr) && tr.Closes(n)
  {
    assert proof[0..] == proof;
    var tr := TranscriptOf(c, proof, n, h);
    VerifyCloses(c, proof, n, h, tr, 0);
    forall other | IsTranscript(c, proof, n, h, other) && other.Closes(n) ensures VerifySpec(c, proof, n, h) {
      VerifyCloses(c, proof, n, h, other, 0);
    }
  }

  lemma {:induction false} Midpoints(c: Claim, proof: seq<int>, n: nat, h: Challenge, tr: Transcript, k: nat)
    requires n > 1 && IsTranscript(c, proof, n, h, tr) && k <= |proof|
    requires proof[k..] == ProveSpec(tr.At(k), n, h)
    ensures forall i :: k <= i < |proof| ==> MidpointAt(tr, proof, n, i)
    ensures tr.ts[|proof|] < 2
    decreases |proof| - k
  {
    if k < |proof| {
      RoundHalves(tr, proof, n, h, k);
      assert proof[k] == proof[k..][0] && proof[k..][1..] == proof[k + 1..];
      Midpoints(c, proof, n, h, tr, k + 1);
    }
  }

  /** For two squarings there is one round, and what it tests is one congruence. */
  lemma VerifyTwo(x: int, y: int, mu: int, n: nat, h: Challenge)
    requires n > 1
    ensures var r := h(x, y, mu);
            VerifySpec(Claim(x, y, 2), [mu], n, h) <==> Pow(mu, r) * y % n == Pow(Pow(x, r) * mu, 2) % n
  {
    var c, r := Claim(x, y, 2), h(x, y, mu);
    HalveIs(c, mu, n, h);
    assert [mu][1..] == [];
    var z := Pow(x, r) * mu;
    CongMod(z, n);
    CongPow(z % n, z, 2, n);
  }

  // ---- What eval computes, and folding ----

  lemma {:induction false} EvalIsPow(g: int, t: nat, n: nat)
    requires n > 1 && t >= 1
    ensures Pow(2, t) >= 0 && EvalSpec(g, t, n) == PowMod(g, Pow(2, t), n)
  {
    Pow2Positive(t);
    if t == 1 {
      assert EvalSpec(g, 0, n) == g;
      assert Pow(g, 2) == g * Pow(g, 1) == g * g;
    } else {
      Pow2Positive(t - 1);
      EvalIsPow(g, t - 1, n);
      var p := Pow(g, Pow(2, t - 1));
      CongMod(p, n);
      CongMul(p % n, p, p % n, p, n);
      PowAdd(g, Pow(2, t - 1), Pow(2, t - 1));
    }
  }

  /** Squaring adds one to the number of squarings. */
  lemma SquareOnce(x: int, k: nat, n: nat)
    requires n > 1
    ensures Pow(2, k) >= 0 && Pow(2, k + 1) >= 0
    ensures PowMod(PowMod(x, Pow(2, k), n), 2, n) == PowMod(x, Pow(2, k + 1), n)
  {
    Pow2Positive(k);
    Pow2Positive(k + 1);
    var p := Pow(x, Pow(2, k));
    CongMod(p, n);
    CongPow(p % n, p, 2, n);
    PowPow(x, Pow(2, k), 2);
  }

  /** The two halves of a claim about an even count fold into one true claim. */
  lemma FoldHalves(x: int, k: nat, r: nat, n: nat)
    requires n > 1
    ensures Pow(2, k) >= 0 && Pow(2, 2 * k) >= 0
    ensures var mu := PowMod(x, Pow(2, k), n);
            var x' := PowMod(x, r, n) * mu % n;
            PowMod(mu, r, n) * PowMod(x, Pow(2, 2 * k), n) % n == PowMod(x', Pow(2, k), n)
  {
    Pow2Positive(k);
    Pow2Positive(2 * k);
    var e := Pow(2, k);
    var p := Pow(x, e);
    var mu := p % n;
    var xr := Pow(x, r);
    var x' := xr % n * mu % n;
    // Both sides are congruent to Pow(p, r) * Pow(p, e).
    FoldLeft(x, k, r, n);
    assert Cong(x', xr * p, n) by {
      CongMod(xr, n);
      CongMod(p, n);
      CongMul(xr % n, xr, mu, p, n);
      CongMod(xr % n * mu, n);
    }
    CongPow(x', xr * p, e, n);
    PowMul(xr, p, e);
    PowPow(x, r, e);
    PowPow(x, e, r);
    assert Pow(xr, e) == Pow(p, r);
  }

  lemma FoldLeft(x: int, k: nat, r: nat, n: nat)
    requires n > 1
    ensures Pow(2, k) >= 0 && Pow(2, 2 * k) >= 0
    ensures var p := Pow(x, Pow(2, k));
            Cong(PowMod(p % n, r, n) * PowMod(x, Pow(2, 2 * k), n), Pow(p, r) * Pow(p, Pow(2, k)), n)
  {
    Pow2Positive(k);
    Pow2Positive(2 * k);
    var e := Pow(2, k);
    var p := Pow(x, e);
    PowAdd(2, k, k);
    PowPow(x, e, e);
    CongMod(p, n);
    CongPow(p % n, p, r, n);
    CongMod(Pow(p % n, r), n);
    CongMod(Pow(p, e), n);
    CongMul(PowMod(p % n, r, n), Pow(p, r), Pow(p, e) % n, Pow(p, e), n);
  }

  // ---- Counting the halvings ----

  /** What halving does to the number of squarings, whatever is claimed. */
  function HalvedCount(t: nat): nat {
    var half := t / 2;
    if half % 2 != 0 && half != 1 then half + 1 else half
  }

  function Rounds(t: nat): nat {
    if t < 2 then 0 else 1 + Rounds(HalvedCount(t))
  }

  lemma {:induction false} ProofRounds(c: Claim, n: nat, h: Challenge)
    requires n > 1
    ensures |ProveSpec(c, n, h)| == Rounds(c.t)
    decreases c.t
  {
    if c.t >= 2 {
      var d := Halve(c, Midpoint(c, n), n, h);
      assert d.t == HalvedCount(c.t);
      ProofRounds(d, n, h);
    }
  }

  lemma {:induction false} RoundsLog(t: nat, k: nat)
    requires k >= 1 && t >= 2 && t % 2 == 0 && Pow(2, k - 1) < t <= Pow(2, k)
    ensures Rounds(t) == k
    decreases k
  {
    assert Pow(2, k) == 2 * Pow(2, k - 1);
    if k == 1 {
      assert Pow(2, 0) == 1;
      assert t == 2 && HalvedCount(t) == 1;
    } else {
      assert Pow(2, k - 1) == 2 * Pow(2, k - 2);
      Pow2Positive(k - 2);
      RoundsLog(HalvedCount(t), k - 1);
    }
  }

  /** An even count in (2^(k-1), 2^k] is halved exactly k times: the proof has ceil(log2 t) elements. */
  lemma ProofLength(c: Claim, n: nat, h: Challenge, k: nat)
    requires n > 1 && k >= 1 && c.t >= 2 && c.t % 2 == 0
    requires Pow(2, k - 1) < c.t <= Pow(2, k)
    ensures |ProveSpec(c, n, h)| == k
  {
    ProofRounds(c, n, h);
    RoundsLog(c.t, k);
  }

  // ---- Claims that are off by a factor ----

  /** The claim is off by the factor `e`: `y` is `e` times what it should be. */
  ghost predicate OffBy(c: Claim, e: int, n: nat)
    requires n > 1
  {
    Pow(2, c.t) >= 0 && Cong(c.y, Pow(c.x, Pow(2, c.t)) * e, n)
  }

  /** How many halvings of `t` squarings add one, and with it a squaring of `y`. */
  function Extras(t: nat): nat {
    if t < 2 then 0 else (if HalvedCount(t) == t / 2 then 0 else 1) + Extras(HalvedCount(t))
  }

  /** The factor of a claim about `t` squarings with the last one of an odd count put into it. */
  function Factor(x: int, t: nat, e: int): int {
    Pow2Positive(t / 2 * 2);
    if t % 2 == 0 then e else Pow(x, Pow(2, t / 2 * 2)) * e
  }

  /** An odd count is an even one with the factor `x` to the same power. */
  lemma EvenPart(c: Claim, e: int, n: nat)
    requires n > 1 && OffBy(c, e, n)
    ensures Pow(2, c.t / 2 * 2) >= 0
    ensures Cong(c.y, Pow(c.x, Pow(2, c.t / 2 * 2)) * Factor(c.x, c.t, e), n)
  {
    var k := c.t / 2 * 2;
    Pow2Positive(k);
    if c.t % 2 == 1 {
      var p := Pow(c.x, Pow(2, k));
      assert Pow(2, c.t) == Pow(2, k) + Pow(2, k);
      PowAdd(c.x, Pow(2, k), Pow(2, k));
      MulAssociate(p, p, e);
    }
  }

  /** Folding keeps the factor. */
  lemma FoldFactor(x: int, y: int, k: nat, r: nat, e: int, n: nat)
    requires n > 1 && Pow(2, 2 * k) >= 0 && Cong(y, Pow(x, Pow(2, 2 * k)) * e, n)
    ensures Pow(2, k) >= 0
    ensures var mu := PowMod(x, Pow(2, k), n);
            var x' := PowMod(x, r, n) * mu % n;
            Cong(PowMod(mu, r, n) * y % n, Pow(x', Pow(2, k)) * e, n)
  {
    FoldHalves(x, k, r, n);
    var mu := PowMod(x, Pow(2, k), n);
    var x' := PowMod(x, r, n) * mu % n;
    var q, p := PowMod(mu, r, n), Pow(x, Pow(2, 2 * k));
    var z := Pow(x', Pow(2, k));
    CongMod(q * y, n);
    CongMul(q, q, y, p * e, n);
    MulAssociate(q, p, e);
    assert Cong(q * p, z, n) by {
      CongMod(p, n);
      CongMul(q, q, p % n, p, n);
      CongMod(z, n);
    }
    CongMul(q * p, z, e, e, n);
  }

  /** Squaring squares the factor. */
  lemma SquareFactor(x: int, y: int, k: nat, e: int, n: nat)
    requires n > 1 && Pow(2, k) >= 0 && Cong(y, Pow(x, Pow(2, k)) * e, n)
    ensures Pow(2, k + 1) >= 0
    ensures Cong(PowMod(y, 2, n), Pow(x, Pow(2, k + 1)) * Pow(e, 2), n)
  {
    Pow2Positive(k + 1);
    var p := Pow(x, Pow(2, k));
    CongPow(y, p * e, 2, n);
    CongMod(Pow(y, 2), n);
    PowMul(p, e, 2);
    PowPow(x, Pow(2, k), 2);
  }

  /** What one halving does to the factor: an odd count adds to it, an extra squaring squares it. */
  lemma HalveOffBy(c: Claim, e: int, n: nat, h: Challenge)
    requires n > 1 && OffBy(c, e, n) && c.t >= 2
    ensures var d := Halve(c, Midpoint(c, n), n, h);
            && d.t == HalvedCount(c.t) && 0 <= d.y < n
            && OffBy(d, Pow(Factor(c.x, c.t, e), if d.t == c.t / 2 then 1 else 2), n)
  {
    var k, f := c.t / 2, Factor(c.x, c.t, e);
    var mu := Midpoint(c, n);
    var r := h(c.x, c.y, mu);
    EvenPart(c, e, n);
    FoldFactor(c.x, c.y, k, r, f, n);
    var x, y := PowMod(c.x, r, n) * mu % n, PowMod(mu, r, n) * c.y % n;
    assert Pow(f, 1) == f * Pow(f, 0) == f;
    if k % 2 != 0 && k != 1 {
      SquareFactor(x, y, k, f, n);
      assert Halve(c, mu, n, h) == Claim(x, PowMod(y, 2, n), k + 1);
    } else {
      assert Halve(c, mu, n, h) == Claim(x, y, k);
    }
  }

  lemma FoldUnit(x: int, k: nat, r: nat, n: nat)
    requires n > 1 && IsUnit(x, n)
    ensures IsUnit(PowMod(x, r, n) * PowMod(x, k, n) % n, n)
  {
    UnitPow(x, r, n);
    UnitMod(Pow(x, r), n);
    UnitPow(x, k, n);
    UnitMod(Pow(x, k), n);
    UnitMul(PowMod(x, r, n), PowMod(x, k, n), n);
    UnitMod(PowMod(x, r, n) * PowMod(x, k, n), n);
  }

  /** The base that the verifier ends with. */
  function FinalBase(c: Claim, n: nat, h: Challenge): int
    requires n > 1
    decreases c.t
  {
    if c.t < 2 then c.x else FinalBase(Halve(c, Midpoint(c, n), n, h), n, h)
  }

  lemma {:induction false} FinalBaseUnit(c: Claim, n: nat, h: Challenge)
    requires n > 1 && IsUnit(c.x, n)
    ensures IsUnit(FinalBase(c, n, h), n)
    decreases c.t
  {
    if c.t >= 2 {
      var mu := Midpoint(c, n);
      Pow2Positive(c.t / 2);
      FoldUnit(c.x, Pow(2, c.t / 2), h(c.x, c.y, mu), n);
      FinalBaseUnit(Halve(c, mu, n, h), n, h);
    }
  }

  /** At the end the claim is `y == x * x`, and the factor has been squared once for every extra squaring. */
  ghost predicate FactorVanishes(x: int, e: int, n: nat)
    requires n > 1
  {
    Cong(Pow(x, 2) * e, Pow(x, 2), n)
  }

  /** Squaring `b` times and then `m` times more. */
  lemma PowPow2(e: int, b: nat, m: nat)
    ensures Pow(2, b) >= 0 && Pow(2, m) >= 0 && Pow(2, b + m) >= 0
    ensures Pow(Pow(e, Pow(2, b)), Pow(2, m)) == Pow(e, Pow(2, b + m))
  {
    Pow2Positive(b);
    Pow2Positive(m);
    PowAdd(2, b, m);
    PowPow(e, Pow(2, b), Pow(2, m));
  }

  lemma LastTest(c: Claim, e: int, n: nat)
    requires n > 1 && OffBy(c, e, n) && 0 <= c.y < n && c.t == 1
    ensures c.y == PowMod(c.x, 2, n) <==> FactorVanishes(c.x, e, n)
  {
    assert Pow(2, 1) == 2 * Pow(2, 0);
    assert Cong(c.y, Pow(c.x, 2) * e, n);
  }

  /** The verifier folds an honest prover's claims as the prover did. */
  lemma VerifyStep(c: Claim, n: nat, h: Challenge)
    requires n > 1 && c.t >= 2
    ensures var d := Halve(c, Midpoint(c, n), n, h);
            VerifySpec(c, ProveSpec(c, n, h), n, h) == VerifySpec(d, ProveSpec(d, n, h), n, h)
  {
    var mu := Midpoint(c, n);
    var d := Halve(c, mu, n, h);
    assert ([mu] + ProveSpec(d, n, h))[1..] == ProveSpec(d, n, h);
  }

  /** The factor after a halving, as a power of two of the factor before. */
  lemma HalveFactor(c: Claim, e: int, n: nat, h: Challenge) returns (b: nat)
    requires n > 1 && OffBy(c, e, n) && c.t >= 2
    ensures b <= 1 && Pow(2, b) >= 0 && Extras(c.t) == b + Extras(HalvedCount(c.t))
    ensures var d := Halve(c, Midpoint(c, n), n, h);
            && d.t == HalvedCount(c.t) && 0 <= d.y < n && (d.t == 1 || (d.t >= 2 && d.t % 2 == 0))
            && OffBy(d, Pow(Factor(c.x, c.t, e), Pow(2, b)), n)
  {
    HalveOffBy(c, e, n, h);
    assert Pow(2, 0) == 1 && Pow(2, 1) == 2 * Pow(2, 0);
    b := if HalvedCount(c.t) == c.t / 2 then 0 else 1;
  }

  lemma {:induction false} OffByVerifies(c: Claim, e: int, n: nat, h: Challenge)
    requires n > 1 && OffBy(c, e, n) && 0 <= c.y < n && (c.t == 1 || (c.t >= 2 && c.t % 2 == 0))
    ensures Pow(2, Extras(c.t)) >= 0
    ensures VerifySpec(c, ProveSpec(c, n, h), n, h) <==>
            FactorVanishes(FinalBase(c, n, h), Pow(e, Pow(2, Extras(c.t))), n)
    decreases c.t
  {
    if c.t == 1 {
      assert Pow(2, 0) == 1 && Pow(e, 1) == e * Pow(e, 0);
      LastTest(c, e, n);
    } else {
      var b := HalveFactor(c, e, n, h);
      PowPow2(e, b, Extras(HalvedCount(c.t)));
      VerifyStep(c, n, h);
      OffByVerifies(Halve(c, Midpoint(c, n), n, h), Pow(e, Pow(2, b)), n, h);
    }
  }

  // ---- Exactly when the honest run is accepted ----

  /** The honest run: evaluate, prove, verify. */
  ghost predicate Accepts(g: int, t: nat, n: nat, h: Challenge)
    requires n > 1
  {
    var c := Claim(g, EvalSpec(g, t, n), t);
    VerifySpec(c, ProveSpec(c, n, h), n, h)
  }

  lemma {:induction false} PowOne(e: nat)
    ensures Pow(1, e) == 1
  {
    if e > 0 {
      PowOne(e - 1);
    }
  }

  /** One squaring, and every even number of them: an honest proof is accepted, whatever the inputs. */
  lemma Completeness(g: int, t: nat, n: nat, h: Challenge)
    requires n > 1 && (t == 1 || (t >= 2 && t % 2 == 0))
    ensures Accepts(g, t, n, h)
  {
    EvalIsPow(g, t, n);
    CongMod(Pow(g, Pow(2, t)), n);
    OffByVerifies(Claim(g, EvalSpec(g, t, n), t), 1, n, h);
    PowOne(Pow(2, Extras(t)));
  }

  /** The factor with which an odd count leaves the verifier. */
  function OddFactor(g: int, t: nat): int
    requires t >= 1
  {
    Pow2Positive(t - 1 + Extras(t));
    Pow(g, Pow(2, t - 1 + Extras(t)))
  }

  /** For every input: an odd count is accepted exactly when its factor vanishes at the end. */
  lemma OddAccepted(g: int, t: nat, n: nat, h: Challenge)
    requires n > 1 && t >= 3 && t % 2 == 1
    ensures Accepts(g, t, n, h) <==>
            FactorVanishes(FinalBase(Claim(g, EvalSpec(g, t, n), t), n, h), OddFactor(g, t), n)
  {
    var c, f := Claim(g, EvalSpec(g, t, n), t), Factor(g, t, 1);
    EvalIsPow(g, t, n);
    CongMod(Pow(g, Pow(2, t)), n);
    var b := HalveFactor(c, 1, n, h);
    VerifyStep(c, n, h);
    OffByVerifies(Halve(c, Midpoint(c, n), n, h), Pow(f, Pow(2, b)), n, h);
    OddExponents(g, t, b);
  }

  lemma OddExponents(g: int, t: nat, b: nat)
    requires t >= 3 && t % 2 == 1 && Extras(t) == b + Extras(HalvedCount(t))
    ensures Pow(2, b) >= 0 && Pow(2, Extras(HalvedCount(t))) >= 0
    ensures Pow(Pow(Factor(g, t, 1), Pow(2, b)), Pow(2, Extras(HalvedCount(t)))) == OddFactor(g, t)
  {
    assert t / 2 * 2 == t - 1;
    PowPow2(Factor(g, t, 1), b, Extras(HalvedCount(t)));
    PowPow2(g, t - 1, Extras(t));
  }

  lemma VanishesUnit(x: int, e: int, n: nat)
    requires n > 1 && IsUnit(x, n)
    ensures FactorVanishes(x, e, n) <==> e % n == 1
  {
    UnitPow(x, 2, n);
    UnitCancel(Pow(x, 2), e, n);
  }

  /**
   For an invertible base, whatever the challenge: an odd count from three on is accepted exactly when the base
   squared that many times less one, and once more for every halving that adds one, is one.
   */
  lemma OddAcceptedUnit(g: int, t: nat, n: nat, h: Challenge)
    requires n > 1 && t >= 3 && t % 2 == 1 && IsUnit(g, n)
    ensures Accepts(g, t, n, h) <==> OddFactor(g, t) % n == 1
  {
    var c := Claim(g, EvalSpec(g, t, n), t);
    OddAccepted(g, t, n, h);
    FinalBaseUnit(c, n, h);
    VanishesUnit(FinalBase(c, n, h), OddFactor(g, t), n);
  }

  /** Without any squaring the verifier still tests one. */
  lemma ZeroAccepted(g: int, n: nat, h: Challenge)
    requires n > 1
    ensures Accepts(g, 0, n, h) <==> g == g * g % n
  {
    assert Pow(g, 2) == g * Pow(g, 1) == g * g;
  }

  /** Modulo 7 the squares of 2 and 4 are 4 and 2, so repeated squaring never reaches one. */
  lemma {:induction false} SquaresOfTwo(k: nat)
    ensures Pow(2, k) >= 0 && PowMod(2, Pow(2, k), 7) == if k % 2 == 0 then 2 else 4
  {
    Pow2Positive(k);
    if k == 0 {
      assert Pow(2, 1) == 2 * Pow(2, 0);
    } else {
      SquaresOfTwo(k - 1);
      SquareOnce(2, k - 1, 7);
      SquareModSeven(PowMod(2, Pow(2, k - 1), 7));
    }
  }

  lemma SquareModSeven(y: int)
    requires y == 2 || y == 4
    ensures PowMod(y, 2, 7) == 6 - y
  {
    assert Pow(y, 2) == y * Pow(y, 1) == y * y;
  }

  /** Two modulo seven is refused for every odd count from three on, whatever the challenge. */
  lemma OddRefused(t: nat, h: Challenge)
    requires t >= 3 && t % 2 == 1
    ensures !Accepts(2, t, 7, h)
  {
    assert Cong(2 * 4, 1, 7);
    SquaresOfTwo(t - 1 + Extras(t));
    OddAcceptedUnit(2, t, 7, h);
  }

  /** The counts for which every honest run is accepted: one, and every even count but zero. */
  lemma CompleteExactly(t: nat)
    ensures (forall g: int, n: nat, h: Challenge :: n > 1 ==> Accepts(g, t, n, h)) <==>
            t == 1 || (t >= 2 && t % 2 == 0)
  {
    var h: Challenge := (x: int, y: int, mu: int) => 0;
    if t == 1 || (t >= 2 && t % 2 == 0) {
      forall g: int, n: nat, h: Challenge | n > 1 ensures Accepts(g, t, n, h) {
        Completeness(g, t, n, h);
      }
    } else if t == 0 {
      ZeroAccepted(2, 5, h);
      assert !Accepts(2, 0, 5, h);
    } else {
      OddRefused(t, h);
      assert !Accepts(2, t, 7, h);
    }
  }
}
