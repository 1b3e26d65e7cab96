/** Claims, proposals and checkpoints, their JSON values, and the hashes over them. */
module Models {
  import opened Decimal
  import opened CanonicalJson
  import opened CanonicalForm
  import Text

  /** A finite `f64`, as its shortest decimal. */
  type Float64 = f: Float | WellFormed(f) witness Float(false, "0", 0)

  const MIN_INT64: int := -0x8000_0000_0000_0000
  const MAX_INT64: int := 0x7FFF_FFFF_FFFF_FFFF

  type Int64 = x: int | MIN_INT64 <= x <= MAX_INT64

  /** Adding one in the release build, which has no overflow checks. */
  function Successor(x: Int64): Int64 { if x == MAX_INT64 then MIN_INT64 else x + 1 }

  datatype WorkType = TextGeneration | Embedding | ImageGeneration | AudioGeneration | Generic
  datatype Precision = Fp32 | Fp16 | Bf16 | Fp8 | Int8 | Int4 | Int2
  datatype DeviceTier = Cpu | GpuApple | GpuNvidia | GpuAmd | Tpu | OtherDevice

  datatype Claim = Claim(
    claimId: string,
    nodeId: string,
    sequence: int,
    workType: WorkType,
    modelId: string,
    paramsB: Float64,
    precision: Precision,
    promptTokens: int,
    completionTokens: int,
    computeSeconds: Float64,
    flopsEstimate: Float64,
    deviceTier: DeviceTier,
    startedAt: string,
    endedAt: string,
    lastSeenHeight: int,
    lastSeenHash: string)

  datatype SignedClaim = SignedClaim(claim: Claim, publicKey: string, signature: string)

  datatype Proposal = Proposal(
    epoch: Int64,
    height: int,
    prevHash: string,
    sealedBy: string,
    claims: seq<SignedClaim>,
    createdAt: string)

  datatype QuorumSignature = QuorumSignature(nodeId: string, publicKey: string, signature: string)

  /** `quorum` is the number of signatures required when the block was sealed; it is
      not covered by the block's hash. */
  datatype Checkpoint = Checkpoint(proposal: Proposal, signatures: seq<QuorumSignature>, quorum: nat)
  {
    function Height(): int { proposal.height }
    function Epoch(): Int64 { proposal.epoch }
  }

  /** What the node takes from outside, with the digest at the level of records: the
      hashes of blocks and proposals, the signature checks, the FLOPS plausibility test
      at a tolerance and the compute units of a claim. */
  datatype Env = Env(
    blockHash: (Proposal, seq<QuorumSignature>) -> string,
    proposalHash: Proposal -> string,
    claimVerifies: SignedClaim -> bool,
    shareVerifies: (string, string, string) -> bool,
    plausible: (Claim, real) -> bool,
    units: Claim -> real)
  {
    /** A block's hash covers its proposal and signatures, not its quorum. */
    function Hash(b: Checkpoint): string { blockHash(b.proposal, b.signatures) }
  }

  /** Hashes determine what they cover. */
  ghost predicate Binding(env: Env) {
    && (forall p, q :: env.proposalHash(p) == env.proposalHash(q) ==> p == q)
    && (forall p, s, q, t :: env.blockHash(p, s) == env.blockHash(q, t) ==> p == q && s == t)
  }

  const GENESIS_SEALER: string := "genesis"
  const GENESIS_TIMESTAMP: string := "1970-01-01T00:00:00+00:00"
  const GENESIS_PREV_HASH: string := "0000000000000000000000000000000000000000000000000000000000000000"

  const GENESIS: Checkpoint :=
    Checkpoint(Proposal(0, 0, GENESIS_PREV_HASH, GENESIS_SEALER, [], GENESIS_TIMESTAMP), [], 0)

  // ----------------------------------------------------------------- JSON values

  function WorkTypeName(w: WorkType): string {
    match w
    case TextGeneration => "text_generation"
    case Embedding => "embedding"
    case ImageGeneration => "image_generation"
    case AudioGeneration => "audio_generation"
    case Generic => "generic"
  }

  function PrecisionName(p: Precision): string {
    match p
    case Fp32 => "fp32" case Fp16 => "fp16" case Bf16 => "bf16" case Fp8 => "fp8"
    case Int8 => "int8" case Int4 => "int4" case Int2 => "int2"
  }

  function DeviceTierName(d: DeviceTier): string {
    match d
    case Cpu => "cpu" case GpuApple => "gpu_apple" case GpuNvidia => "gpu_nvidia"
    case GpuAmd => "gpu_amd" case Tpu => "tpu" case OtherDevice => "other"
  }

  /** A struct's value: its keys in declaration order. */
  function Record(keys: seq<string>, values: seq<Json>): (r: Json)
    requires |keys| == |values|
    ensures r.Obj? && |r.fields| == |keys|
    ensures forall i :: 0 <= i < |keys| ==> r.fields[i] == Field(keys[i], values[i])
  { Obj(seq(|keys|, i requires 0 <= i < |keys| => Field(keys[i], values[i]))) }

  const CLAIM_KEYS: seq<string> := [
    "claim_id", "node_id", "seq", "work_type", "model_id", "params_b", "precision", "prompt_tokens",
    "completion_tokens", "compute_seconds", "flops_estimate", "device_tier", "started_at", "ended_at",
    "last_seen_checkpoint_height", "last_seen_checkpoint_hash"]

  const SIGNED_KEYS: seq<string> := ["claim", "public_key_hex", "signature_hex"]
  const PROPOSAL_KEYS: seq<string> := ["epoch", "height", "prev_hash", "sealed_by", "claims", "created_at"]
  const SIGNATURE_KEYS: seq<string> := ["node_id", "public_key_hex", "signature_hex"]

  function ClaimFields(c: Claim): (r: seq<Json>)
    ensures |r| == 16
  {
    [Str(c.claimId), Str(c.nodeId), Int(c.sequence), Str(WorkTypeName(c.workType)), Str(c.modelId),
     Number(c.paramsB), Str(PrecisionName(c.precision)), Int(c.promptTokens), Int(c.completionTokens),
     Number(c.computeSeconds), Number(c.flopsEstimate), Str(DeviceTierName(c.deviceTier)), Str(c.startedAt),
     Str(c.endedAt), Int(c.lastSeenHeight), Str(c.lastSeenHash)]
  }

  function ClaimValue(c: Claim): Json { Record(CLAIM_KEYS, ClaimFields(c)) }

  function SignedFields(s: SignedClaim): seq<Json> { [ClaimValue(s.claim), Str(s.publicKey), Str(s.signature)] }

  function SignedValue(s: SignedClaim): Json { Record(SIGNED_KEYS, SignedFields(s)) }

  function SignedValues(cs: seq<SignedClaim>): (r: seq<Json>)
    ensures |r| == |cs| && forall i :: 0 <= i < |cs| ==> r[i] == SignedValue(cs[i])
  { seq(|cs|, i requires 0 <= i < |cs| => SignedValue(cs[i])) }

  function ProposalFields(p: Proposal): seq<Json> {
    [Int(p.epoch), Int(p.height), Str(p.prevHash), Str(p.sealedBy), Arr(SignedValues(p.claims)), Str(p.createdAt)]
  }

  function ProposalValue(p: Proposal): Json { Record(PROPOSAL_KEYS, ProposalFields(p)) }

  function SignatureFields(s: QuorumSignature): seq<Json> { [Str(s.nodeId), Str(s.publicKey), Str(s.signature)] }

  function SignatureValue(s: QuorumSignature): Json { Record(SIGNATURE_KEYS, SignatureFields(s)) }

  function SignaturesValue(ss: seq<QuorumSignature>): (r: Json)
    ensures r.Arr? && |r.items| == |ss| && forall i :: 0 <= i < |ss| ==> r.items[i] == SignatureValue(ss[i])
  { Arr(seq(|ss|, i requires 0 <= i < |ss| => SignatureValue(ss[i]))) }

  /** Every field of a claim stands under its own name. */
  lemma ClaimRecord(c: Claim)
    ensures var fs := ClaimValue(c).fields;
            && |fs| == 16
            && fs[0] == Field("claim_id", Str(c.claimId)) && fs[1] == Field("node_id", Str(c.nodeId)) && fs[2] == Field("seq", Int(c.sequence))
            && fs[3] == Field("work_type", Str(WorkTypeName(c.workType))) && fs[4] == Field("model_id", Str(c.modelId))
            && fs[5] == Field("params_b", Number(c.paramsB)) && fs[6] == Field("precision", Str(PrecisionName(c.precision)))
            && fs[7] == Field("prompt_tokens", Int(c.promptTokens)) && fs[8] == Field("completion_tokens", Int(c.completionTokens))
            && fs[9] == Field("compute_seconds", Number(c.computeSeconds)) && fs[10] == Field("flops_estimate", Number(c.flopsEstimate))
            && fs[11] == Field("device_tier", Str(DeviceTierName(c.deviceTier)))
            && fs[12] == Field("started_at", Str(c.startedAt)) && fs[13] == Field("ended_at", Str(c.endedAt))
            && fs[14] == Field("last_seen_checkpoint_height", Int(c.lastSeenHeight)) && fs[15] == Field("last_seen_checkpoint_hash", Str(c.lastSeenHash))
  {
  }

  /** So do those of signed claims, proposals and signatures. */
  lemma OtherRecords(s: SignedClaim, p: Proposal, q: QuorumSignature)
    ensures SignedValue(s).fields == [Field("claim", ClaimValue(s.claim)), Field("public_key_hex", Str(s.publicKey)), Field("signature_hex", Str(s.signature))]
    ensures ProposalValue(p).fields == [Field("epoch", Int(p.epoch)), Field("height", Int(p.height)), Field("prev_hash", Str(p.prevHash)),
              Field("sealed_by", Str(p.sealedBy)), Field("claims", Arr(SignedValues(p.claims))), Field("created_at", Str(p.createdAt))]
    ensures SignatureValue(q).fields == [Field("node_id", Str(q.nodeId)), Field("public_key_hex", Str(q.publicKey)), Field("signature_hex", Str(q.signature))]
  {
  }

  // ---------------------------------------------------------------------- hashes

  type Digest = string -> string

  function ProposalHash(sha: Digest, p: Proposal): string { sha(Canonical(ProposalValue(p))) }

  /** The proposal's digest followed by the signatures' canonical text, digested. */
  function BlockHash(sha: Digest, p: Proposal, ss: seq<QuorumSignature>): string {
    sha(ProposalHash(sha, p) + Canonical(SignaturesValue(ss)))
  }

  /** The node's hashes over a given digest. */
  function WithDigest(sha: Digest, env: Env): Env {
    env.(blockHash := (p, ss) => BlockHash(sha, p, ss), proposalHash := p => ProposalHash(sha, p))
  }

  /** The digest as an ideal: no two inputs share an output, and outputs are hex. */
  ghost predicate SoundDigest(sha: Digest) {
    (forall x, y :: sha(x) == sha(y) ==> x == y) && forall x :: '[' !in sha(x)
  }

  // ----------------------------------------------- records from their JSON values

  lemma RecordValid(keys: seq<string>, vs: seq<Json>)
    requires Text.Distinct(keys) && |vs| == |keys| && forall i :: 0 <= i < |vs| ==> Valid(vs[i])
    ensures Valid(Record(keys, vs))
  {
  }

  /** Records over the same keys agree field by field. */
  lemma RecordSame(keys: seq<string>, vs: seq<Json>, ws: seq<Json>, i: nat)
    requires Text.Distinct(keys) && |vs| == |ws| == |keys| && i < |keys|
    requires Same(Record(keys, vs), Record(keys, ws))
    ensures Same(vs[i], ws[i])
  {
    hide Same;
    var f, g := Record(keys, vs).fields, Record(keys, ws).fields;
    SameHas(Record(keys, vs), Record(keys, ws), i);
    var j :| 0 <= j < |g| && g[j].key == f[i].key && Same(f[i].value, g[j].value);
    assert j == i;
  }

  lemma SameHas(v: Json, w: Json, i: nat)
    requires v.Obj? && Same(v, w) && i < |v.fields|
    ensures w.Obj? && HasField(w.fields, v.fields[i])
  {
  }

  lemma ClaimKeysDistinct()
    ensures Text.Distinct(CLAIM_KEYS)
  {
    var k := CLAIM_KEYS;
    // Only keys of one length need telling apart by a letter.
    assert k[0][0] == 'c' && k[4][0] == 'm' && k[5][0] == 'p' && k[13][0] == 'e';
    assert k[3][0] == 'w' && k[6][0] == 'p';
    assert |k[0]| == 8 && |k[1]| == 7 && |k[2]| == 3 && |k[3]| == 9 && |k[4]| == 8 && |k[5]| == 8 && |k[6]| == 9;
    assert |k[7]| == 13 && |k[8]| == 17 && |k[9]| == 15 && |k[10]| == 14 && |k[11]| == 11 && |k[12]| == 10;
    assert |k[13]| == 8 && |k[14]| == 27 && |k[15]| == 25;
  }

  lemma OtherKeysDistinct()
    ensures Text.Distinct(SIGNED_KEYS) && Text.Distinct(PROPOSAL_KEYS) && Text.Distinct(SIGNATURE_KEYS)
  {
    var p := PROPOSAL_KEYS;
    assert |p[0]| == 5 && |p[1]| == 6 && |p[2]| == 9 && |p[3]| == 9 && |p[4]| == 6 && |p[5]| == 10;
    assert p[1][0] == 'h' && p[4][0] == 'c' && p[2][0] == 'p' && p[3][0] == 's';
    var s := SIGNED_KEYS;
    assert |s[0]| == 5 && |s[1]| == 14 && |s[2]| == 13;
    var q := SIGNATURE_KEYS;
    assert |q[0]| == 7 && |q[1]| == 14 && |q[2]| == 13;
  }

  lemma WorkTypeNameInjective(a: WorkType, b: WorkType)
    requires WorkTypeName(a) == WorkTypeName(b)
    ensures a == b
  {
    assert |WorkTypeName(a)| == |WorkTypeName(b)|;
    assert WorkTypeName(a)[0] == WorkTypeName(b)[0];
  }

  lemma PrecisionNameInjective(a: Precision, b: Precision)
    requires PrecisionName(a) == PrecisionName(b)
    ensures a == b
  {
    var x, y := PrecisionName(a), PrecisionName(b);
    assert |x| == |y| && x[0] == y[0] && x[2] == y[2];
    assert |x| == 4 ==> x[3] == y[3];
  }

  lemma DeviceTierNameInjective(a: DeviceTier, b: DeviceTier)
    requires DeviceTierName(a) == DeviceTierName(b)
    ensures a == b
  {
    assert |DeviceTierName(a)| == |DeviceTierName(b)|;
    assert DeviceTierName(a)[0] == DeviceTierName(b)[0];
  }

  lemma ClaimFieldsInjective(c: Claim, d: Claim)
    requires forall i :: 0 <= i < 16 ==> ClaimFields(c)[i] == ClaimFields(d)[i]
    ensures c == d
  {
    var x, y := ClaimFields(c), ClaimFields(d);
    assert x[0] == y[0] && x[1] == y[1] && x[2] == y[2] && x[3] == y[3] && x[4] == y[4] && x[5] == y[5];
    assert x[6] == y[6] && x[7] == y[7] && x[8] == y[8] && x[9] == y[9] && x[10] == y[10] && x[11] == y[11];
    assert x[12] == y[12] && x[13] == y[13] && x[14] == y[14] && x[15] == y[15];
    WorkTypeNameInjective(c.workType, d.workType);
    PrecisionNameInjective(c.precision, d.precision);
    DeviceTierNameInjective(c.deviceTier, d.deviceTier);
  }

  ghost predicate Scalar(v: Json) { !v.Arr? && !v.Obj? }

  lemma ScalarSame(v: Json, w: Json)
    requires Same(v, w) && Scalar(v)
    ensures v == w
  {
  }

  lemma ClaimScalars(c: Claim, i: nat)
    requires i < 16
    ensures Scalar(ClaimFields(c)[i])
  {
  }

  lemma ClaimBinds(c: Claim, d: Claim)
    requires Same(ClaimValue(c), ClaimValue(d))
    ensures c == d
  {
    forall i | 0 <= i < 16 ensures ClaimFields(c)[i] == ClaimFields(d)[i] { ClaimFieldSame(c, d, i); }
    ClaimFieldsInjective(c, d);
  }

  lemma ClaimFieldSame(c: Claim, d: Claim, i: nat)
    requires Same(ClaimValue(c), ClaimValue(d)) && i < 16
    ensures ClaimFields(c)[i] == ClaimFields(d)[i]
  {
    ClaimKeysDistinct();
    RecordSame(CLAIM_KEYS, ClaimFields(c), ClaimFields(d), i);
    ClaimScalars(c, i);
    ScalarSame(ClaimFields(c)[i], ClaimFields(d)[i]);
  }

  lemma SignedBinds(s: SignedClaim, t: SignedClaim)
    requires Same(SignedValue(s), SignedValue(t))
    ensures s == t
  {
    OtherKeysDistinct();
    RecordSame(SIGNED_KEYS, SignedFields(s), SignedFields(t), 0);
    RecordSame(SIGNED_KEYS, SignedFields(s), SignedFields(t), 1);
    RecordSame(SIGNED_KEYS, SignedFields(s), SignedFields(t), 2);
    ClaimBinds(s.claim, t.claim);
  }

  lemma SignedListBinds(a: seq<SignedClaim>, b: seq<SignedClaim>)
    requires Same(Arr(SignedValues(a)), Arr(SignedValues(b)))
    ensures a == b
  {
    forall i | 0 <= i < |a| ensures a[i] == b[i] {
      assert Same(SignedValues(a)[i], SignedValues(b)[i]);
      SignedBinds(a[i], b[i]);
    }
  }

  /** A proposal is determined by its JSON value. */
  lemma ProposalBinds(p: Proposal, q: Proposal)
    requires Same(ProposalValue(p), ProposalValue(q))
    ensures p == q
  {
    forall i | 0 <= i < 6 ensures Same(ProposalFields(p)[i], ProposalFields(q)[i]) {
      OtherKeysDistinct();
      RecordSame(PROPOSAL_KEYS, ProposalFields(p), ProposalFields(q), i);
    }
    ProposalScalars(p, q, ProposalFields(p), ProposalFields(q));
    SignedListBinds(p.claims, q.claims) by {
      assert ProposalFields(p)[4] == Arr(SignedValues(p.claims));
      assert ProposalFields(q)[4] == Arr(SignedValues(q.claims));
    }
  }

  lemma ProposalScalars(p: Proposal, q: Proposal, x: seq<Json>, y: seq<Json>)
    requires x == ProposalFields(p) && y == ProposalFields(q)
    requires forall i :: 0 <= i < 6 ==> Same(x[i], y[i])
    ensures p == q.(claims := p.claims)
  {
    ScalarSame(x[0], y[0]);
    ScalarSame(x[1], y[1]);
    ScalarSame(x[2], y[2]);
    ScalarSame(x[3], y[3]);
    ScalarSame(x[5], y[5]);
  }

  lemma SignatureBinds(s: QuorumSignature, t: QuorumSignature)
    requires Same(SignatureValue(s), SignatureValue(t))
    ensures s == t
  {
    OtherKeysDistinct();
    RecordSame(SIGNATURE_KEYS, SignatureFields(s), SignatureFields(t), 0);
    RecordSame(SIGNATURE_KEYS, SignatureFields(s), SignatureFields(t), 1);
    RecordSame(SIGNATURE_KEYS, SignatureFields(s), SignatureFields(t), 2);
  }

  lemma SignaturesBind(a: seq<QuorumSignature>, b: seq<QuorumSignature>)
    requires Same(SignaturesValue(a), SignaturesValue(b))
    ensures a == b
  {
    forall i | 0 <= i < |a| ensures a[i] == b[i] {
      assert Same(SignaturesValue(a).items[i], SignaturesValue(b).items[i]);
      SignatureBinds(a[i], b[i]);
    }
  }

  // -------------------------------------------------------------- valid JSON

  lemma SignedValid(s: SignedClaim)
    ensures Valid(SignedValue(s))
  {
    ClaimKeysDistinct();
    OtherKeysDistinct();
    RecordValid(CLAIM_KEYS, ClaimFields(s.claim));
    RecordValid(SIGNED_KEYS, SignedFields(s));
  }

  lemma ProposalValid(p: Proposal)
    ensures Valid(ProposalValue(p))
  {
    OtherKeysDistinct();
    forall i | 0 <= i < |p.claims| ensures Valid(SignedValues(p.claims)[i]) { SignedValid(p.claims[i]); }
    RecordValid(PROPOSAL_KEYS, ProposalFields(p));
  }

  lemma SignaturesValid(ss: seq<QuorumSignature>)
    ensures Valid(SignaturesValue(ss))
  {
    OtherKeysDistinct();
    forall i | 0 <= i < |ss| ensures Valid(SignaturesValue(ss).items[i]) {
      RecordValid(SIGNATURE_KEYS, SignatureFields(ss[i]));
    }
  }

  // ------------------------------------------------------------ hashes bind

  /** The digest of a proposal determines it. */
  lemma ProposalHashBinds(sha: Digest, p: Proposal, q: Proposal)
    requires SoundDigest(sha) && ProposalHash(sha, p) == ProposalHash(sha, q)
    ensures p == q
  {
    ProposalValid(p);
    ProposalValid(q);
    CanonicalDecides(ProposalValue(p), ProposalValue(q));
    ProposalBinds(p, q);
  }

  /** A text without `c` followed by one that starts with it splits one way. */
  lemma {:induction false} SplitAt(a: string, b: string, x: string, y: string, c: char)
    requires c !in a && c !in b && x != "" && y != "" && x[0] == c && y[0] == c && a + x == b + y
    ensures a == b && x == y
  {
    var s := a + x;
    FindAt(a, c, x[1..]);
    FindAt(b, c, y[1..]);
    assert s == a + [c] + x[1..] == b + [c] + y[1..];
    assert a == s[..|a|] && b == s[..|b|] && x == s[|a|..] && y == s[|b|..];
  }

  /** A block's digest determines its proposal and its signatures. */
  lemma BlockHashBinds(sha: Digest, p: Proposal, s: seq<QuorumSignature>, q: Proposal, t: seq<QuorumSignature>)
    requires SoundDigest(sha) && BlockHash(sha, p, s) == BlockHash(sha, q, t)
    ensures p == q && s == t
  {
    var v, w := SignaturesValue(s), SignaturesValue(t);
    SplitAt(ProposalHash(sha, p), ProposalHash(sha, q), Canonical(v), Canonical(w), '[');
    ProposalHashBinds(sha, p, q);
    SignaturesValid(s);
    SignaturesValid(t);
    CanonicalDecides(v, w);
    SignaturesBind(s, t);
  }

  /** Over a sound digest the canonical encodings make every hash binding: no two
      proposals and no two blocks, however their text is escaped or nested, collide. */
  lemma DigestBinds(sha: Digest, env: Env)
    requires SoundDigest(sha)
    ensures Binding(WithDigest(sha, env))
  {
    var e := WithDigest(sha, env);
    forall p, q | e.proposalHash(p) == e.proposalHash(q) ensures p == q {
      ProposalHashBinds(sha, p, q);
    }
    forall p, s, q, t | e.blockHash(p, s) == e.blockHash(q, t) ensures p == q && s == t {
      BlockHashBinds(sha, p, s, q, t);
    }
  }
}
