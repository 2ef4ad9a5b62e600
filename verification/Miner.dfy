/** The proof-of-work search over the delay function (miner/src/cpu_miner.rs) and the check it must pass. */
module Miner {
  import opened Primitives
  import opened Vdf
  import opened Codec
  import opened CompactTarget

  /** Evaluations between two looks at the target. */
  const STEP: nat := 1024

  datatype BlockTemplate = BlockTemplate(version: u32, previousHeaderHash: Hash, time: u32, bits: u32, height: u32)

  datatype Solution = Solution(iterations: u32, randomness: int, proof: seq<int>)

  /**
   The functions the search uses without knowing anything about them: the map of seed bytes to a group
   element, the double SHA-256 of header bytes, the Fiat-Shamir challenge, and the 2048-bit modulus.
   */
  datatype Crypto = Crypto(toGroup: Bytes -> int, dhash256: Bytes -> Hash, challenge: Challenge, modulus: nat) {
    ghost predicate Valid() {
      modulus > 1 && |Digits(modulus)| <= 256
    }
  }

  /** `h_g` of the miner, from the template. */
  function TemplateSeed(crypto: Crypto, template: BlockTemplate, pubkey: Bytes): int
    requires |pubkey| == 32
  {
    crypto.toGroup(SeedBytes(template.version, template.previousHeaderHash, template.time, template.bits, pubkey))
  }

  /** `h_g` of the verifier, from a finished header (verification/src/verify_block.rs). */
  function HeaderSeed(crypto: Crypto, h: BlockHeader): int
    requires |h.pubkey| == 32
  {
    crypto.toGroup(SeedBytes(h.version, h.previousHeaderHash, h.time, h.bits, h.pubkey))
  }

  /** Miner and verifier seed the delay function with the header up to the iterations, not known to the miner yet. */
  lemma SeedsAgree(crypto: Crypto, template: BlockTemplate, pubkey: Bytes, iterations: u32, randomness: int)
    requires |pubkey| == 32 && Storable(randomness)
    ensures var h := Header(template, pubkey, iterations, randomness);
            && |SerHeader(h)| >= 77
            && TemplateSeed(crypto, template, pubkey) == HeaderSeed(crypto, h) == crypto.toGroup(SerHeader(h)[..77])
  {
    SeedStartsHeader(Header(template, pubkey, iterations, randomness));
  }

  /** `BlockVDF::check`: the proof is one of the header's randomness, for its own seed and number of iterations. */
  method CheckVdf(crypto: Crypto, block: Block) returns (ok: bool)
    requires crypto.Valid() && |block.header.pubkey| == 32
    ensures ok == PassesVdf(crypto, block)
    ensures ok <==> exists tr ::
              && IsTranscript(Claim(HeaderSeed(crypto, block.header), block.header.randomness, block.header.iterations),
                              block.proof, crypto.modulus, crypto.challenge, tr)
              && tr.Closes(crypto.modulus)
  {
    var g := HeaderSeed(crypto, block.header);
    ok := Verify(g, block.header.randomness, block.header.iterations, block.proof, crypto.modulus, crypto.challenge);
  }

  ghost predicate PassesVdf(crypto: Crypto, block: Block)
    requires crypto.Valid() && |block.header.pubkey| == 32
  {
    VerifySpec(Claim(HeaderSeed(crypto, block.header), block.header.randomness, block.header.iterations),
               block.proof, crypto.modulus, crypto.challenge)
  }

  function Header(template: BlockTemplate, pubkey: Bytes, iterations: u32, randomness: int): BlockHeader {
    BlockHeader(template.version, template.previousHeaderHash, template.time, template.bits, pubkey, iterations,
                randomness)
  }

  /** The header with the randomness after `iterations` evaluations meets the template's target. */
  ghost predicate Meets(crypto: Crypto, template: BlockTemplate, pubkey: Bytes, iterations: nat)
    requires crypto.Valid() && |pubkey| == 32
  {
    && 0 < iterations < TWO_POW_32
    && var g := TemplateSeed(crypto, template, pubkey);
       ResidueStorable(crypto, g, iterations);
       HashMeets(crypto, Header(template, pubkey, iterations, EvalSpec(g, iterations, crypto.modulus)))
  }

  predicate HashMeets(crypto: Crypto, h: BlockHeader)
    requires StorableHeader(h)
  {
    IsValidProofOfWorkHash(h.bits, crypto.dhash256(SerHeader(h)))
  }

  /** Meeting the target, in numbers. */
  lemma HashMeetsIs(crypto: Crypto, h: BlockHeader)
    requires StorableHeader(h)
    ensures HashMeets(crypto, h) <==>
            && crypto.dhash256(SerHeader(h)) <= Meaning(h.bits) < TWO_POW_256
            && (!IsSigned(h.bits) || Meaning(h.bits) == 0)
  {
    ProofOfWorkThreshold(h.bits, crypto.dhash256(SerHeader(h)));
  }

  lemma {:induction false} DigitsMonotone(v: nat, w: nat)
    requires v <= w
    ensures |Digits(v)| <= |Digits(w)|
  {
    if v > 0 {
      DigitsMonotone(v / 256, w / 256);
    }
  }

  lemma ResidueStorable(crypto: Crypto, g: int, t: nat)
    requires crypto.Valid() && t > 0
    ensures 0 <= EvalSpec(g, t, crypto.modulus) < crypto.modulus
    ensures Storable(EvalSpec(g, t, crypto.modulus))
  {
    DigitsMonotone(EvalSpec(g, t, crypto.modulus), crypto.modulus);
  }

  /** Evaluating in two stretches is evaluating in one. */
  lemma {:induction false} EvalComposes(g: int, s: nat, t: nat, n: nat)
    requires n > 1
    ensures EvalSpec(EvalSpec(g, s, n), t, n) == EvalSpec(g, s + t, n)
  {
    if t > 0 {
      EvalComposes(g, s, t - 1, n);
    }
  }

  /** The assembled block of a solution passes the check of the verifier. */
  lemma SolutionPasses(crypto: Crypto, template: BlockTemplate, pubkey: Bytes, iterations: u32)
    requires crypto.Valid() && |pubkey| == 32 && iterations > 0 && iterations % 2 == 0
    ensures
      var g := TemplateSeed(crypto, template, pubkey);
      var y := EvalSpec(g, iterations, crypto.modulus);
      var proof := ProveSpec(Claim(g, y, iterations), crypto.modulus, crypto.challenge);
      PassesVdf(crypto, Block(Header(template, pubkey, iterations, y), proof))
  {
    Completeness(TemplateSeed(crypto, template, pubkey), iterations, crypto.modulus, crypto.challenge);
  }

  lemma StepsAreEven(looks: nat)
    ensures looks * STEP % STEP == 0 && looks * STEP % 2 == 0
  {
    assert looks * STEP == 2 * (looks * 512);
  }

  /** One stretch of the search: `STEP` more evaluations and a look at the target. */
  method Look(crypto: Crypto, template: BlockTemplate, pubkey: Bytes, curY: int, iterations: u32)
    returns (newY: int, met: bool)
    requires crypto.Valid() && |pubkey| == 32 && iterations >= STEP
    requires curY == EvalSpec(TemplateSeed(crypto, template, pubkey), iterations - STEP, crypto.modulus)
    ensures newY == EvalSpec(TemplateSeed(crypto, template, pubkey), iterations, crypto.modulus)
    ensures met <==> Meets(crypto, template, pubkey, iterations)
  {
    ghost var g := TemplateSeed(crypto, template, pubkey);
    EvalComposes(g, iterations - STEP, STEP, crypto.modulus);
    ResidueStorable(crypto, g, iterations);
    newY := Eval(curY, STEP, crypto.modulus);
    met := HashMeets(crypto, Header(template, pubkey, iterations, newY));
  }

  /** The randomness is that of `iterations` evaluations, and the header with it is the first to meet the target. */
  ghost predicate IsFirst(crypto: Crypto, template: BlockTemplate, pubkey: Bytes, s: Solution)
    requires crypto.Valid() && |pubkey| == 32
  {
    && s.iterations % STEP == 0
    && Meets(crypto, template, pubkey, s.iterations)
    && s.randomness == EvalSpec(TemplateSeed(crypto, template, pubkey), s.iterations, crypto.modulus)
    && forall k: nat :: k * STEP < s.iterations ==> !Meets(crypto, template, pubkey, k * STEP)
  }

  /**
   Looks every `STEP` evaluations whether the header meets its target. `timedOut` says after how many
   looks the clock has run out.
   */
  method FindSolution(crypto: Crypto, template: BlockTemplate, pubkey: Bytes, timedOut: nat -> bool)
    returns (r: Option<Solution>)
    requires crypto.Valid() && |pubkey| == 32
    ensures r.Some? ==>
              && IsFirst(crypto, template, pubkey, r.value)
              && PassesVdf(crypto, Block(Header(template, pubkey, r.value.iterations, r.value.randomness), r.value.proof))
              && var header := Header(template, pubkey, r.value.iterations, r.value.randomness);
                 StorableHeader(header) && crypto.dhash256(SerHeader(header)) <= Meaning(template.bits)
    ensures r.None? && (forall k :: !timedOut(k)) ==>
              forall k: nat :: !Meets(crypto, template, pubkey, k * STEP)
  {
    var g := TemplateSeed(crypto, template, pubkey);
    var curY := g;
    var iterations: nat := 0;
    ghost var looks: nat := 0;
    while true
      invariant iterations == looks * STEP < TWO_POW_32
      invariant curY == EvalSpec(g, iterations, crypto.modulus)
      invariant forall k: nat :: k <= looks ==> !Meets(crypto, template, pubkey, k * STEP)
      decreases TWO_POW_32 - iterations
    {
      if timedOut(iterations / STEP) {
        return None;
      }
      iterations := iterations + STEP;
      if iterations >= TWO_POW_32 {
        return None;
      }
      var newY, met := Look(crypto, template, pubkey, curY, iterations);
      if met {
        var proof := Prove(g, newY, iterations, crypto.modulus, crypto.challenge);
        StepsAreEven(looks + 1);
        SolutionPasses(crypto, template, pubkey, iterations);
        ResidueStorable(crypto, g, iterations);
        HashMeetsIs(crypto, Header(template, pubkey, iterations, newY));
        return Some(Solution(iterations, newY, proof));
      }
      curY := newY;
      looks := looks + 1;
    }
  }
}
