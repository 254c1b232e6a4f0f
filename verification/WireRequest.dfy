/** The calibration request (calibration_worker_protocol.cpp): every field the supervisor sends, in wire order,
    the decoder the guardian and the worker share, and that the two are inverse. */
module WireRequest {
  import opened Results
  import opened WireBytes
  import opened WireRecords
  import opened WireFrame

  // ----- file identities -------------------------------------------------------------------------------------

  datatype FileIdentity = FileIdentity(
    device: Word64, inode: Word64, size: Word64, mode: Word32,
    modifiedSeconds: Int64, modifiedNanoseconds: Int64, changedSeconds: Int64, changedNanoseconds: Int64)

  const IDENTITY: seq<Width> := [W8, W8, W8, W4, W8, W8, W8, W8]

  predicate Nanoseconds(n: Int64) { 0 <= n < 1_000_000_000 }

  predicate OkIdentity(v: Option<FileIdentity>) {
    v.Some? ==> Nanoseconds(v.value.modifiedNanoseconds) && Nanoseconds(v.value.changedNanoseconds)
  }

  function IdentityFields(i: FileIdentity): (v: seq<nat>)
    ensures FitAll(IDENTITY, v)
  {
    [i.device, i.inode, i.size, i.mode, Bits(i.modifiedSeconds), Bits(i.modifiedNanoseconds),
     Bits(i.changedSeconds), Bits(i.changedNanoseconds)]
  }

  function IdentityOf(v: seq<nat>): (i: FileIdentity)
    requires FitAll(IDENTITY, v)
    ensures IdentityFields(i) == v
  {
    FileIdentity(v[0], v[1], v[2], v[3], Signed(v[4]), Signed(v[5]), Signed(v[6]), Signed(v[7]))
  }

  function EncIdentity(v: Option<FileIdentity>): Bytes {
    if v.None? then EncField(WB, 0) else EncField(WB, 1) + EncFields(IDENTITY, IdentityFields(v.value))
  }

  function DecIdentity(s: Bytes, o: nat): (r: Option<(Option<FileIdentity>, nat)>)
    ensures r.Some? ==> r.value.1 <= |s|
  {
    var (present, o1) :- DecField(WB, s, o);
    if present == 0 then Some((None, o1))
    else
      var (v, o2) :- DecFields(IDENTITY, s, o1);
      if OkIdentity(Some(IdentityOf(v))) then Some((Some(IdentityOf(v)), o2)) else None
  }

  lemma {:induction false} IdentityExact(s: Bytes, o: nat, v: Option<FileIdentity>, o': nat)
    ensures DecIdentity(s, o) == Some((v, o')) <==> OkIdentity(v) && At(s, o, EncIdentity(v)) && o' == o + |EncIdentity(v)|
  {
    hide At, EncField, DecField, EncFields, DecFields, Nanoseconds;
    FieldExact(WB, s, o, Bit(v.Some?), o + 1);
    if v.Some? {
      var fields := IdentityFields(v.value);
      AtConcat(s, o, EncField(WB, 1), EncFields(IDENTITY, fields));
      if o + 1 <= |s| {
        FieldsExact(IDENTITY, s, o + 1, fields, o');
      }
    }
  }

  method WriteIdentity(w: Writer, v: Option<FileIdentity>) returns (r: Option<()>)
    requires |w.bytes| <= MAX_PAYLOAD
    modifies w
    ensures !OkIdentity(v) ==> r.None?
    ensures OkIdentity(v) ==> Appended(old(w.bytes), EncIdentity(v), r.Some?, w.bytes)
  {
    hide EncField, EncFields;
    if v.Some? { Append2(w.bytes, EncField(WB, 1), EncFields(IDENTITY, IdentityFields(v.value))); }
    var _ :- w.Boolean(v.Some?);
    if v.None? { return Some(()); }
    if !Nanoseconds(v.value.modifiedNanoseconds) || !Nanoseconds(v.value.changedNanoseconds) { return None; }
    r := w.Fields(IDENTITY, IdentityFields(v.value));
  }

  method ReadIdentity(rd: Reader) returns (r: Option<Option<FileIdentity>>)
    requires rd.Valid()
    modifies rd
    ensures rd.Valid() && Read(DecIdentity(rd.bytes, old(rd.offset)), r, rd.offset)
  {
    hide DecField, DecFields, Nanoseconds;
    var present :- rd.Boolean();
    if !present { return Some(None); }
    var v :- rd.Fields(IDENTITY);
    var i := IdentityOf(v);
    if !Nanoseconds(i.modifiedNanoseconds) || !Nanoseconds(i.changedNanoseconds) { return None; }
    return Some(Some(i));
  }

  // ----- one video input --------------------------------------------------------------------------------------

  datatype VideoInput = VideoInput(
    path: Bytes, lensProfile: Option<Bytes>, retainedPath: Option<Bytes>,
    identity: Option<FileIdentity>, lensIdentity: Option<FileIdentity>)

  predicate OkInput(v: VideoInput) {
    |v.path| <= MAX_PATH && OkOptText(v.lensProfile, MAX_PATH) && OkOptText(v.retainedPath, MAX_PATH)
    && OkIdentity(v.identity) && OkIdentity(v.lensIdentity)
  }

  function EncNames(v: VideoInput): Bytes { EncText(v.path) + EncOptText(v.lensProfile) + EncOptText(v.retainedPath) }

  function EncInput(v: VideoInput): Bytes { EncNames(v) + EncIdentity(v.identity) + EncIdentity(v.lensIdentity) }

  function DecNames(s: Bytes, o: nat): (r: Option<(VideoInput, nat)>)
    ensures r.Some? ==> r.value.1 <= |s| && r.value.0.identity == None && r.value.0.lensIdentity == None
  {
    var (path, o1) :- DecText(s, o, MAX_PATH);
    var (lens, o2) :- DecOptText(s, o1, MAX_PATH);
    var (retained, o3) :- DecOptText(s, o2, MAX_PATH);
    Some((VideoInput(path, lens, retained, None, None), o3))
  }

  function DecInput(s: Bytes, o: nat): (r: Option<(VideoInput, nat)>)
    ensures r.Some? ==> r.value.1 <= |s|
  {
    var (names, o1) :- DecNames(s, o);
    var (identity, o2) :- DecIdentity(s, o1);
    var (lensIdentity, o3) :- DecIdentity(s, o2);
    Some((names.(identity := identity, lensIdentity := lensIdentity), o3))
  }

  predicate OkNames(v: VideoInput) {
    |v.path| <= MAX_PATH && OkOptText(v.lensProfile, MAX_PATH) && OkOptText(v.retainedPath, MAX_PATH)
  }

  lemma {:induction false} NamesExact(s: Bytes, o: nat, v: VideoInput, o': nat)
    ensures DecNames(s, o) == Some((v.(identity := None, lensIdentity := None), o'))
      <==> OkNames(v) && At(s, o, EncNames(v)) && o' == o + |EncNames(v)|
  {
    hide At, EncText, DecText, EncOptText, DecOptText, OkOptText;
    var a, b := EncText(v.path), EncOptText(v.lensProfile);
    AtConcat3(s, o, a, b, EncOptText(v.retainedPath));
    if DecNames(s, o) == Some((v.(identity := None, lensIdentity := None), o')) {
      var o1 := DecText(s, o, MAX_PATH).value.1;
      TextExact(s, o, MAX_PATH, v.path, o1);
      var o2 := DecOptText(s, o1, MAX_PATH).value.1;
      OptTextExact(s, o1, MAX_PATH, v.lensProfile, o2);
      OptTextExact(s, o2, MAX_PATH, v.retainedPath, o');
    }
    if OkNames(v) && At(s, o, EncNames(v)) && o' == o + |EncNames(v)| {
      TextExact(s, o, MAX_PATH, v.path, o + |a|);
      OptTextExact(s, o + |a|, MAX_PATH, v.lensProfile, o + |a| + |b|);
      OptTextExact(s, o + |a| + |b|, MAX_PATH, v.retainedPath, o');
    }
  }

  lemma {:induction false} InputExact(s: Bytes, o: nat, v: VideoInput, o': nat)
    ensures DecInput(s, o) == Some((v, o')) <==> OkInput(v) && At(s, o, EncInput(v)) && o' == o + |EncInput(v)|
  {
    hide At, EncNames, DecNames, EncIdentity, DecIdentity, OkOptText, OkIdentity;
    var a, b := EncNames(v), EncIdentity(v.identity);
    AtConcat3(s, o, a, b, EncIdentity(v.lensIdentity));
    if DecInput(s, o) == Some((v, o')) {
      var (names, o1) := DecNames(s, o).value;
      assert names == v.(identity := None, lensIdentity := None);
      NamesExact(s, o, v, o1);
      var o2 := DecIdentity(s, o1).value.1;
      IdentityExact(s, o1, v.identity, o2);
      IdentityExact(s, o2, v.lensIdentity, o');
    }
    if OkInput(v) && At(s, o, EncInput(v)) && o' == o + |EncInput(v)| {
      NamesExact(s, o, v, o + |a|);
      IdentityExact(s, o + |a|, v.identity, o + |a| + |b|);
      IdentityExact(s, o + |a| + |b|, v.lensIdentity, o');
    }
  }

  /** `write_input`. */
  method WriteInput(w: Writer, v: VideoInput) returns (r: Option<()>)
    requires |w.bytes| <= MAX_PAYLOAD
    modifies w
    ensures !OkInput(v) ==> r.None?
    ensures OkInput(v) ==> Appended(old(w.bytes), EncInput(v), r.Some?, w.bytes)
  {
    hide EncText, EncOptText, EncIdentity, OkOptText, OkIdentity;
    Append3(w.bytes, EncText(v.path), EncOptText(v.lensProfile), EncOptText(v.retainedPath));
    Append3(w.bytes, EncNames(v), EncIdentity(v.identity), EncIdentity(v.lensIdentity));
    var _ :- w.Text(v.path, MAX_PATH);
    var _ :- WriteOptText(w, v.lensProfile, MAX_PATH);
    var _ :- WriteOptText(w, v.retainedPath, MAX_PATH);
    var _ :- WriteIdentity(w, v.identity);
    r := WriteIdentity(w, v.lensIdentity);
  }

  /** `read_input`. */
  method ReadInput(rd: Reader) returns (r: Option<VideoInput>)
    requires rd.Valid()
    modifies rd
    ensures rd.Valid() && Read(DecInput(rd.bytes, old(rd.offset)), r, rd.offset)
  {
    hide DecText, DecOptText, DecIdentity;
    var path :- rd.Text(MAX_PATH);
    var lens :- ReadOptText(rd, MAX_PATH);
    var retained :- ReadOptText(rd, MAX_PATH);
    var identity :- ReadIdentity(rd);
    var lensIdentity :- ReadIdentity(rd);
    return Some(VideoInput(path, lens, retained, identity, lensIdentity));
  }

  // ----- the configuration -------------------------------------------------------------------------------------

  datatype Sampling = Sampling(numFrames: Word64, skipStart: Word64, skipEnd: Word64, useImuSeeds: bool)

  datatype Seeds = Seeds(xrz: Option<Word64>, xrx: Option<Word64>, zrx: Option<Word64>)

  datatype Matching = Matching(
    akazeThreshold: Word64, maxKeypoints: Word64, yMin: Word64, yMax: Word64,
    loweRatio: Word64, minMatches: Word64, spatialX: Word64, spatialXInner: Word64,
    spatialYLow: Word64, spatialYHigh: Word64, maxYDisparity: Word64, ransac: Word64)

  /** The optimizer settings and the synchronisation policy after them. */
  datatype Policy = Policy(
    lockCamD: bool, lockZRx: bool, enableXRx: bool, seamSigma: Word64, trimFraction: Word64, maxIters: Word64,
    noAutoImu: bool, autoSync: bool, manualSyncOffset: Int64)

  const SAMPLING: seq<Width> := [W8, W8, W8, WB]
  const MATCHING: seq<Width> := [W8, W8, W8, W8, W8, W8, W8, W8, W8, W8, W8, W8]
  const POLICY: seq<Width> := [WB, WB, WB, W8, W8, W8, WB, WB, W8]

  function SamplingFields(c: Sampling): (v: seq<nat>)
    ensures FitAll(SAMPLING, v)
  {
    [c.numFrames, c.skipStart, c.skipEnd, Bit(c.useImuSeeds)]
  }

  function SamplingOf(v: seq<nat>): (c: Sampling)
    requires FitAll(SAMPLING, v)
    ensures SamplingFields(c) == v
  {
    Sampling(v[0], v[1], v[2], v[3] == 1)
  }

  function MatchingFields(m: Matching): (v: seq<nat>)
    ensures FitAll(MATCHING, v)
  {
    [m.akazeThreshold, m.maxKeypoints, m.yMin, m.yMax, m.loweRatio, m.minMatches, m.spatialX, m.spatialXInner,
     m.spatialYLow, m.spatialYHigh, m.maxYDisparity, m.ransac]
  }

  function MatchingOf(v: seq<nat>): (m: Matching)
    requires FitAll(MATCHING, v)
    ensures MatchingFields(m) == v
  {
    Matching(v[0], v[1], v[2], v[3], v[4], v[5], v[6], v[7], v[8], v[9], v[10], v[11])
  }

  function PolicyFields(p: Policy): (v: seq<nat>)
    ensures FitAll(POLICY, v)
  {
    [Bit(p.lockCamD), Bit(p.lockZRx), Bit(p.enableXRx), p.seamSigma, p.trimFraction, p.maxIters,
     Bit(p.noAutoImu), Bit(p.autoSync), Bits(p.manualSyncOffset)]
  }

  function PolicyOf(v: seq<nat>): (p: Policy)
    requires FitAll(POLICY, v)
    ensures PolicyFields(p) == v
  {
    Policy(v[0] == 1, v[1] == 1, v[2] == 1, v[3], v[4], v[5], v[6] == 1, v[7] == 1, Signed(v[8]))
  }

  function EncSeed(v: Option<Word64>): Bytes {
    if v.None? then EncField(WB, 0) else EncField(WB, 1) + EncField(W8, v.value)
  }

  function DecSeed(s: Bytes, o: nat): (r: Option<(Option<Word64>, nat)>)
    ensures r.Some? ==> r.value.1 <= |s|
  {
    var (present, o1) :- DecField(WB, s, o);
    if present == 0 then Some((None, o1))
    else
      var (v, o2) :- DecField(W8, s, o1);
      Some((Some(v), o2))
  }

  function EncSeeds(v: Seeds): Bytes { EncSeed(v.xrz) + EncSeed(v.xrx) + EncSeed(v.zrx) }

  function DecSeeds(s: Bytes, o: nat): (r: Option<(Seeds, nat)>)
    ensures r.Some? ==> r.value.1 <= |s|
  {
    var (xrz, o1) :- DecSeed(s, o);
    var (xrx, o2) :- DecSeed(s, o1);
    var (zrx, o3) :- DecSeed(s, o2);
    Some((Seeds(xrz, xrx, zrx), o3))
  }

  lemma {:induction false} SeedExact(s: Bytes, o: nat, v: Option<Word64>, o': nat)
    ensures DecSeed(s, o) == Some((v, o')) <==> At(s, o, EncSeed(v)) && o' == o + |EncSeed(v)|
  {
    hide At, EncField, DecField;
    FieldExact(WB, s, o, Bit(v.Some?), o + 1);
    if v.Some? {
      AtConcat(s, o, EncField(WB, 1), EncField(W8, v.value));
      FieldExact(W8, s, o + 1, v.value, o');
    }
  }

  lemma {:induction false} SeedsExact(s: Bytes, o: nat, v: Seeds, o': nat)
    ensures DecSeeds(s, o) == Some((v, o')) <==> At(s, o, EncSeeds(v)) && o' == o + |EncSeeds(v)|
  {
    hide At, EncSeed, DecSeed;
    var a, b := EncSeed(v.xrz), EncSeed(v.xrx);
    AtConcat3(s, o, a, b, EncSeed(v.zrx));
    if DecSeeds(s, o) == Some((v, o')) {
      var o1 := DecSeed(s, o).value.1;
      SeedExact(s, o, v.xrz, o1);
      var o2 := DecSeed(s, o1).value.1;
      SeedExact(s, o1, v.xrx, o2);
      SeedExact(s, o2, v.zrx, o');
    }
    if At(s, o, EncSeeds(v)) && o' == o + |EncSeeds(v)| {
      SeedExact(s, o, v.xrz, o + |a|);
      SeedExact(s, o + |a|, v.xrx, o + |a| + |b|);
      SeedExact(s, o + |a| + |b|, v.zrx, o');
    }
  }

  datatype Settings = Settings(sampling: Sampling, seeds: Seeds, matching: Matching, policy: Policy)

  function EncSettings(v: Settings): Bytes {
    EncFields(SAMPLING, SamplingFields(v.sampling)) + EncSeeds(v.seeds)
    + EncFields(MATCHING, MatchingFields(v.matching)) + EncFields(POLICY, PolicyFields(v.policy))
  }

  function DecSettings(s: Bytes, o: nat): (r: Option<(Settings, nat)>)
    requires o <= |s|
    ensures r.Some? ==> r.value.1 <= |s|
  {
    var (sampling, o1) :- DecFields(SAMPLING, s, o);
    var (seeds, o2) :- DecSeeds(s, o1);
    var (matching, o3) :- DecFields(MATCHING, s, o2);
    var (policy, o4) :- DecFields(POLICY, s, o3);
    Some((Settings(SamplingOf(sampling), seeds, MatchingOf(matching), PolicyOf(policy)), o4))
  }

  lemma {:induction false} SettingsInverse(v: Settings)
    ensures SamplingOf(SamplingFields(v.sampling)) == v.sampling
    ensures MatchingOf(MatchingFields(v.matching)) == v.matching
    ensures PolicyOf(PolicyFields(v.policy)) == v.policy
  {
    SignedOfBits(v.policy.manualSyncOffset);
  }

  lemma {:induction false} SettingsExact(s: Bytes, o: nat, v: Settings, o': nat)
    requires o <= |s|
    ensures DecSettings(s, o) == Some((v, o')) <==> At(s, o, EncSettings(v)) && o' == o + |EncSettings(v)|
  {
    SettingsInverse(v);
    hide At, EncFields, DecFields, EncSeeds, DecSeeds, SamplingFields, MatchingFields, PolicyFields;
    hide SamplingOf, MatchingOf, PolicyOf;
    var a, b, c := EncFields(SAMPLING, SamplingFields(v.sampling)), EncSeeds(v.seeds), EncFields(MATCHING, MatchingFields(v.matching));
    AtConcat4(s, o, a, b, c, EncFields(POLICY, PolicyFields(v.policy)));
    if DecSettings(s, o) == Some((v, o')) {
      var (f1, o1) := DecFields(SAMPLING, s, o).value;
      FieldsExact(SAMPLING, s, o, f1, o1);
      var o2 := DecSeeds(s, o1).value.1;
      SeedsExact(s, o1, v.seeds, o2);
      var (f3, o3) := DecFields(MATCHING, s, o2).value;
      FieldsExact(MATCHING, s, o2, f3, o3);
      FieldsExact(POLICY, s, o3, DecFields(POLICY, s, o3).value.0, o');
    }
    if At(s, o, EncSettings(v)) && o' == o + |EncSettings(v)| {
      FieldsExact(SAMPLING, s, o, SamplingFields(v.sampling), o + |a|);
      SeedsExact(s, o + |a|, v.seeds, o + |a| + |b|);
      AtBound(s, o + |a|, b);
      FieldsExact(MATCHING, s, o + |a| + |b|, MatchingFields(v.matching), o + |a| + |b| + |c|);
      AtBound(s, o + |a| + |b|, c);
      FieldsExact(POLICY, s, o + |a| + |b| + |c|, PolicyFields(v.policy), o');
    }
  }

  method WriteSeed(w: Writer, v: Option<Word64>) returns (r: Option<()>)
    requires |w.bytes| <= MAX_PAYLOAD
    modifies w
    ensures Appended(old(w.bytes), EncSeed(v), r.Some?, w.bytes)
  {
    hide EncField;
    if v.Some? { Append2(w.bytes, EncField(WB, 1), EncField(W8, v.value)); }
    var _ :- w.Boolean(v.Some?);
    if v.Some? {
      var _ :- w.U64(v.value);
    }
    return Some(());
  }

  method ReadSeed(rd: Reader) returns (r: Option<Option<Word64>>)
    requires rd.Valid()
    modifies rd
    ensures rd.Valid() && Read(DecSeed(rd.bytes, old(rd.offset)), r, rd.offset)
  {
    hide DecField;
    var present :- rd.Boolean();
    if !present { return Some(None); }
    var v :- rd.U64();
    return Some(Some(v));
  }

  method WriteSettings(w: Writer, v: Settings) returns (r: Option<()>)
    requires |w.bytes| <= MAX_PAYLOAD
    modifies w
    ensures Appended(old(w.bytes), EncSettings(v), r.Some?, w.bytes)
  {
    hide EncFields, EncSeed, SamplingFields, MatchingFields, PolicyFields;
    var a := EncFields(SAMPLING, SamplingFields(v.sampling));
    Append3(w.bytes + a, EncSeed(v.seeds.xrz), EncSeed(v.seeds.xrx), EncSeed(v.seeds.zrx));
    Append4(w.bytes, a, EncSeeds(v.seeds), EncFields(MATCHING, MatchingFields(v.matching)),
            EncFields(POLICY, PolicyFields(v.policy)));
    var _ :- w.Fields(SAMPLING, SamplingFields(v.sampling));
    var _ :- WriteSeed(w, v.seeds.xrz);
    var _ :- WriteSeed(w, v.seeds.xrx);
    var _ :- WriteSeed(w, v.seeds.zrx);
    var _ :- w.Fields(MATCHING, MatchingFields(v.matching));
    r := w.Fields(POLICY, PolicyFields(v.policy));
  }

  method ReadSettings(rd: Reader) returns (r: Option<Settings>)
    requires rd.Valid()
    modifies rd
    ensures rd.Valid() && Read(DecSettings(rd.bytes, old(rd.offset)), r, rd.offset)
  {
    hide DecFields, DecSeed, SamplingOf, MatchingOf, PolicyOf;
    var sampling :- rd.Fields(SAMPLING);
    var xrz :- ReadSeed(rd);
    var xrx :- ReadSeed(rd);
    var zrx :- ReadSeed(rd);
    var matching :- rd.Fields(MATCHING);
    var policy :- rd.Fields(POLICY);
    return Some(Settings(SamplingOf(sampling), Seeds(xrz, xrx, zrx), MatchingOf(matching), PolicyOf(policy)));
  }

  // ----- paths and limits ----------------------------------------------------------------------------------------

  /** `NvbufSurfaceAbi`: DeepStream 7.1 or 9.1. */
  type Abi = n: nat | n == 701 || n == 901 witness 701

  datatype Limits = Limits(timeout: Word64, hostMemory: Word64, abi: Abi)

  const LIMITS: seq<Width> := [W8, W8, W4]

  datatype Deployment = Deployment(
    debugDir: Option<Bytes>, output: Bytes, probeWorker: Bytes, probeTimeout: Word64, workerPath: Bytes, limits: Limits)

  predicate OkPaths(d: Deployment) {
    OkOptText(d.debugDir, MAX_PATH) && |d.output| <= MAX_PATH && |d.probeWorker| <= MAX_PATH && |d.workerPath| <= MAX_PATH
  }

  function LimitsFields(l: Limits): (v: seq<nat>)
    ensures FitAll(LIMITS, v)
  {
    [l.timeout, l.hostMemory, l.abi]
  }

  function EncPaths(d: Deployment): Bytes { EncOptText(d.debugDir) + EncText(d.output) + EncText(d.probeWorker) }

  function EncEnd(d: Deployment): Bytes {
    EncField(W8, d.probeTimeout) + EncText(d.workerPath) + EncFields(LIMITS, LimitsFields(d.limits))
  }

  function DecPaths(s: Bytes, o: nat): (r: Option<((Option<Bytes>, Bytes, Bytes), nat)>)
    ensures r.Some? ==> r.value.1 <= |s|
  {
    var (debugDir, o1) :- DecOptText(s, o, MAX_PATH);
    var (output, o2) :- DecText(s, o1, MAX_PATH);
    var (probe, o3) :- DecText(s, o2, MAX_PATH);
    Some(((debugDir, output, probe), o3))
  }

  function DecEnd(s: Bytes, o: nat): (r: Option<((Word64, Bytes, Limits), nat)>)
    ensures r.Some? ==> r.value.1 <= |s|
  {
    var (probeTimeout, o1) :- DecField(W8, s, o);
    var (worker, o2) :- DecText(s, o1, MAX_PATH);
    var (v, o3) :- DecFields(LIMITS, s, o2);
    if v[2] != 701 && v[2] != 901 then None else Some(((probeTimeout, worker, Limits(v[0], v[1], v[2])), o3))
  }

  lemma {:induction false} PathsExact(s: Bytes, o: nat, d: Deployment, o': nat)
    ensures DecPaths(s, o) == Some(((d.debugDir, d.output, d.probeWorker), o'))
      <==> OkOptText(d.debugDir, MAX_PATH) && |d.output| <= MAX_PATH && |d.probeWorker| <= MAX_PATH
           && At(s, o, EncPaths(d)) && o' == o + |EncPaths(d)|
  {
    hide At, EncText, DecText, EncOptText, DecOptText, OkOptText;
    var a, b := EncOptText(d.debugDir), EncText(d.output);
    AtConcat3(s, o, a, b, EncText(d.probeWorker));
    OptTextExact(s, o, MAX_PATH, d.debugDir, o + |a|);
    TextExact(s, o + |a|, MAX_PATH, d.output, o + |a| + |b|);
    TextExact(s, o + |a| + |b|, MAX_PATH, d.probeWorker, o');
    if DecPaths(s, o) == Some(((d.debugDir, d.output, d.probeWorker), o')) {
      var o1 := DecOptText(s, o, MAX_PATH).value.1;
      OptTextExact(s, o, MAX_PATH, d.debugDir, o1);
      TextExact(s, o1, MAX_PATH, d.output, DecText(s, o1, MAX_PATH).value.1);
    }
  }

  lemma {:induction false} EndExact(s: Bytes, o: nat, d: Deployment, o': nat)
    ensures DecEnd(s, o) == Some(((d.probeTimeout, d.workerPath, d.limits), o'))
      <==> |d.workerPath| <= MAX_PATH && At(s, o, EncEnd(d)) && o' == o + |EncEnd(d)|
  {
    hide At, EncText, DecText, EncField, DecField, EncFields, DecFields;
    var a, b := EncField(W8, d.probeTimeout), EncText(d.workerPath);
    AtConcat3(s, o, a, b, EncFields(LIMITS, LimitsFields(d.limits)));
    FieldExact(W8, s, o, d.probeTimeout, o + 8);
    TextExact(s, o + 8, MAX_PATH, d.workerPath, o + 8 + |b|);
    if o + 8 + |b| <= |s| {
      FieldsExact(LIMITS, s, o + 8 + |b|, LimitsFields(d.limits), o');
    } else if At(s, o + 8, b) {
      AtBound(s, o + 8, b);
    }
    if DecEnd(s, o) == Some(((d.probeTimeout, d.workerPath, d.limits), o')) {
      var o2 := DecText(s, o + 8, MAX_PATH).value.1;
      TextExact(s, o + 8, MAX_PATH, d.workerPath, o2);
      var v := DecFields(LIMITS, s, o2).value.0;
      assert v == [v[0], v[1], v[2]];
      FieldsExact(LIMITS, s, o2, v, o');
    }
  }

  // ----- the request -----------------------------------------------------------------------------------------------

  datatype CalibrationRequest = CalibrationRequest(left: VideoInput, right: VideoInput, settings: Settings, deployment: Deployment)

  predicate OkRequest(r: CalibrationRequest) { OkInput(r.left) && OkInput(r.right) && OkPaths(r.deployment) }

  /** What the protocol itself demands of a request: no path over 16 KiB, and nanoseconds under a second. */
  lemma {:induction false} RequestMeans(r: CalibrationRequest)
    ensures OkRequest(r) <==>
      && SendableInput(r.left) && SendableInput(r.right)
      && (r.deployment.debugDir.Some? ==> |r.deployment.debugDir.value| <= 16384)
      && |r.deployment.output| <= 16384 && |r.deployment.probeWorker| <= 16384 && |r.deployment.workerPath| <= 16384
  {
  }

  predicate SendableInput(v: VideoInput) {
    && |v.path| <= 16384 && (v.lensProfile.Some? ==> |v.lensProfile.value| <= 16384)
    && (v.retainedPath.Some? ==> |v.retainedPath.value| <= 16384)
    && (v.identity.Some? ==>
          0 <= v.identity.value.modifiedNanoseconds < 1000000000 && 0 <= v.identity.value.changedNanoseconds < 1000000000)
    && (v.lensIdentity.Some? ==>
          && 0 <= v.lensIdentity.value.modifiedNanoseconds < 1000000000
          && 0 <= v.lensIdentity.value.changedNanoseconds < 1000000000)
  }

  function EncInputs(r: CalibrationRequest): Bytes { EncInput(r.left) + EncInput(r.right) }

  function EncRequest(r: CalibrationRequest): Bytes {
    EncInputs(r) + EncSettings(r.settings) + EncPaths(r.deployment) + EncEnd(r.deployment)
  }

  function DecInputs(s: Bytes): (r: Option<((VideoInput, VideoInput), nat)>)
    ensures r.Some? ==> r.value.1 <= |s|
  {
    var (left, o1) :- DecInput(s, 0);
    var (right, o2) :- DecInput(s, o1);
    Some(((left, right), o2))
  }

  function DecBody(s: Bytes): Option<CalibrationRequest> {
    var (inputs, o1) :- DecInputs(s);
    var (settings, o2) :- DecSettings(s, o1);
    var (paths, o3) :- DecPaths(s, o2);
    var (end, o4) :- DecEnd(s, o3);
    if o4 != |s| then None
    else Some(CalibrationRequest(inputs.0, inputs.1, settings, Deployment(paths.0, paths.1, paths.2, end.0, end.1, end.2)))
  }

  lemma {:induction false} InputsExact(s: Bytes, r: CalibrationRequest, o': nat)
    ensures DecInputs(s) == Some(((r.left, r.right), o'))
      <==> OkInput(r.left) && OkInput(r.right) && At(s, 0, EncInputs(r)) && o' == |EncInputs(r)|
  {
    hide At, EncInput, DecInput, OkInput;
    var a := EncInput(r.left);
    AtConcat(s, 0, a, EncInput(r.right));
    InputExact(s, 0, r.left, |a|);
    InputExact(s, |a|, r.right, o');
    if DecInput(s, 0).Some? {
      InputExact(s, 0, r.left, DecInput(s, 0).value.1);
    }
  }

  lemma {:induction false} BodyExact(s: Bytes, r: CalibrationRequest)
    ensures DecBody(s) == Some(r) <==> OkRequest(r) && s == EncRequest(r)
  {
    hide At, EncInputs, DecInputs, EncSettings, DecSettings, EncPaths, DecPaths, EncEnd, DecEnd, OkInput, OkOptText;
    var a, b, c, e := EncInputs(r), EncSettings(r.settings), EncPaths(r.deployment), EncEnd(r.deployment);
    AtConcat4(s, 0, a, b, c, e);
    if OkRequest(r) && s == EncRequest(r) {
      WholeIs(s, EncRequest(r));
      InputsExact(s, r, |a|);
      SettingsExact(s, |a|, r.settings, |a| + |b|);
      PathsExact(s, |a| + |b|, r.deployment, |a| + |b| + |c|);
      EndExact(s, |a| + |b| + |c|, r.deployment, |s|);
    }
    if DecBody(s) == Some(r) {
      var o1 := DecInputs(s).value.1;
      InputsExact(s, r, o1);
      var o2 := DecSettings(s, o1).value.1;
      SettingsExact(s, o1, r.settings, o2);
      var o3 := DecPaths(s, o2).value.1;
      PathsExact(s, o2, r.deployment, o3);
      EndExact(s, o3, r.deployment, |s|);
      WholeIs(s, EncRequest(r));
    }
  }

  // ----- encode and decode -------------------------------------------------------------------------------------------

  /** `encode_calibration_worker_request`: None is the thrown error. */
  function RequestFrame(r: CalibrationRequest): Option<Bytes> {
    if OkRequest(r) then Frame(Message.Request, EncRequest(r)) else None
  }

  /** `decode_calibration_worker_request`; `valid` stands for the request validation run at its end. */
  function DecRequest(b: Bytes, valid: CalibrationRequest -> bool): Option<CalibrationRequest> {
    var (m, payload) :- ParseFrame(b);
    if !m.Request? then None
    else
      var r :- DecBody(payload);
      if valid(r) then Some(r) else None
  }

  /** The decoder returns `r` on exactly the one frame the encoder makes of `r`, provided `r` is valid. */
  lemma {:induction false} RequestBijection(b: Bytes, r: CalibrationRequest, valid: CalibrationRequest -> bool)
    ensures DecRequest(b, valid) == Some(r) <==> RequestFrame(r) == Some(b) && valid(r)
  {
    hide Frame, ParseFrame, DecBody, EncRequest, OkRequest;
    if OkRequest(r) {
      FramingExact(b, Message.Request, EncRequest(r));
      BodyExact(EncRequest(r), r);
    }
    if DecRequest(b, valid) == Some(r) {
      BodyExact(ParseFrame(b).value.1, r);
    }
  }

  method WriteDeployment(w: Writer, d: Deployment) returns (r: Option<()>)
    requires |w.bytes| <= MAX_PAYLOAD
    modifies w
    ensures !OkPaths(d) ==> r.None?
    ensures OkPaths(d) ==> Appended(old(w.bytes), EncPaths(d) + EncEnd(d), r.Some?, w.bytes)
  {
    hide EncOptText, EncText, EncField, EncFields, OkOptText;
    var end := EncFields(LIMITS, LimitsFields(d.limits));
    Append3(w.bytes, EncOptText(d.debugDir), EncText(d.output), EncText(d.probeWorker));
    Append3(w.bytes + EncPaths(d), EncField(W8, d.probeTimeout), EncText(d.workerPath), end);
    Append2(w.bytes, EncPaths(d), EncEnd(d));
    var _ :- WriteOptText(w, d.debugDir, MAX_PATH);
    var _ :- w.Text(d.output, MAX_PATH);
    var _ :- w.Text(d.probeWorker, MAX_PATH);
    var _ :- w.U64(d.probeTimeout);
    var _ :- w.Text(d.workerPath, MAX_PATH);
    r := w.Fields(LIMITS, LimitsFields(d.limits));
  }

  method WriteRequest(w: Writer, request: CalibrationRequest) returns (r: Option<()>)
    requires w.bytes == []
    modifies w
    ensures !OkRequest(request) ==> r.None?
    ensures OkRequest(request) ==> Appended([], EncRequest(request), r.Some?, w.bytes)
  {
    hide EncInput, EncSettings, EncPaths, EncEnd, OkInput, OkPaths;
    Append2([], EncInput(request.left), EncInput(request.right));
    Append4([], EncInputs(request), EncSettings(request.settings), EncPaths(request.deployment), EncEnd(request.deployment));
    Append2([] + EncInputs(request) + EncSettings(request.settings), EncPaths(request.deployment), EncEnd(request.deployment));
    var _ :- WriteInput(w, request.left);
    var _ :- WriteInput(w, request.right);
    var _ :- WriteSettings(w, request.settings);
    r := WriteDeployment(w, request.deployment);
  }

  /** A request too large for its frame is refused, whether the writer or the framing notices. */
  method EncodeRequest(request: CalibrationRequest) returns (sent: Option<Bytes>)
    ensures sent == RequestFrame(request)
  {
    hide EncRequest, OkRequest, EncHeader;
    var w := new Writer();
    var done := WriteRequest(w, request);
    assert [] + EncRequest(request) == EncRequest(request);
    if done.None? { return None; }
    sent := MakeFrame(Message.Request, w.bytes);
  }

  method ReadRequest(payload: Bytes) returns (r: Option<CalibrationRequest>)
    ensures r == DecBody(payload)
  {
    hide DecInput, DecSettings, DecOptText, DecText, DecField, DecFields;
    var rd := new Reader(payload);
    var left :- ReadInput(rd);
    var right :- ReadInput(rd);
    var settings :- ReadSettings(rd);
    var debugDir :- ReadOptText(rd, MAX_PATH);
    var output :- rd.Text(MAX_PATH);
    var probe :- rd.Text(MAX_PATH);
    var probeTimeout :- rd.U64();
    var worker :- rd.Text(MAX_PATH);
    var v :- rd.Fields(LIMITS);
    if v[2] != 701 && v[2] != 901 { return None; }
    if rd.offset != |payload| { return None; }
    return Some(CalibrationRequest(left, right, settings,
                        Deployment(debugDir, output, probe, probeTimeout, worker, Limits(v[0], v[1], v[2]))));
  }

  method DecodeRequest(b: Bytes, valid: CalibrationRequest -> bool) returns (r: Option<CalibrationRequest>)
    ensures r == DecRequest(b, valid)
  {
    hide ParseFrame, DecBody;
    var parsed :- Parse(b);
    if !parsed.0.Request? { return None; }
    var request :- ReadRequest(parsed.1);
    return if valid(request) then Some(request) else None;
  }
}
