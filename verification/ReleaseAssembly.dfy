/**
 How a build gathers its members from the qualified inputs, and where every
 member of a built release comes from.
 */
module ReleaseAssembly {
  import opened Common
  import opened Text
  import opened Paths
  import opened ArchiveExtract
  import opened ReleaseManifest
  import opened ReleaseImport
  import opened ReleaseBuild

  const MAX_EVIDENCE: nat := 0x10_0000

  /** The regular files a build may read, by path. They do not change while it runs. */
  type Sources = map<string, Bytes>

  /** `qualification` lists (member path, source) pairs, in the order the map is visited. */
  datatype Input = Input(artifact: Artifact, artifactSource: string, evidenceSource: string,
                         qualification: seq<(string, string)>)

  datatype Metadata = Metadata(
    releaseVersion: string, sourceCommit: string, buildWorkflow: string, controllerMin: string, controllerMax: string,
    controllerSha256: string, controllerSize: int64, policyVersion: string, siteApiVersion: string, schemaVersion: int)

  /** `filepath.Base`. */
  function Base(path: string): string {
    if path == "" then "."
    else if path[|path| - 1] != '/' then Split(path, '/')[|Split(path, '/')| - 1]
    else if |path| == 1 then "/"
    else Base(path[..|path| - 1])
  }

  function ArtifactPath(input: Input): string {
    Clean("artifacts" + "/" + input.artifact.name + "/" + Base(input.artifactSource))
  }

  function QualificationPath(artifact: string, file: string): string {
    Clean("evidence" + "/" + artifact + "/" + Base(file))
  }

  predicate PlainName(name: string) {
    name != "" && name != "." && name != ".." && '/' !in name && '\\' !in name && '\0' !in name
  }

  /** `validateReleaseInput`. */
  predicate InputOk(input: Input, sources: Sources) {
    && PlainName(input.artifact.name) && IsSha256(input.artifact.contentSha256) && input.artifactSource in sources
    && (input.evidenceSource != "" ==> input.evidenceSource in sources)
  }

  /** `newReleaseMember`. */
  function NewMember(path: string, source: string, kind: string, artifact: string, sources: Sources): Result<Member> {
    if !BundlePath(path) || source !in sources || |sources[source]| > MAX_FILE as int then Err
    else Ok(Member(path, sources[source], kind, artifact))
  }

  // ----- where members come from -----

  predicate IsArtifact(x: Member, input: Input, sources: Sources) {
    && x.kind == "artifact" && x.artifact == input.artifact.name && x.path == ArtifactPath(input)
    && input.artifactSource in sources && x.bytes == sources[input.artifactSource]
  }

  predicate IsEvidence(x: Member, input: Input, sources: Sources, b: Maker) {
    && x.kind == "evidence" && x.artifact == input.artifact.name && x.path == EvidencePath(input.artifact.name)
    && input.evidenceSource in sources && |sources[input.evidenceSource]| <= 1048576
    && b.evidence(sources[input.evidenceSource], input.artifact, ArtifactPath(input)) == Some(x.bytes)
  }

  predicate IsQualification(x: Member, input: Input, q: (string, string), sources: Sources) {
    && x.kind == "evidence" && x.artifact == input.artifact.name && x.path == q.0 && q.1 in sources &&
      x.bytes == sources[q.1]
  }

  ghost predicate FromInput(x: Member, input: Input, sources: Sources, b: Maker) {
    || IsArtifact(x, input, sources)
    || (input.evidenceSource != "" && IsEvidence(x, input, sources, b))
    || exists q <- input.qualification :: IsQualification(x, input, q, sources)
  }

  predicate IsCompanionMember(x: Member) {
    (x.kind == STREAMDECK_KIND && x.path == STREAMDECK_PATH) || (x.kind == STATUS_KIND && x.path == STATUS_PATH)
  }

  ghost predicate Traced(xs: seq<Member>, inputs: seq<Input>, sources: Sources, b: Maker) {
    forall x <- xs :: IsCompanionMember(x) || exists input <- inputs :: FromInput(x, input, sources, b)
  }

  /** A qualification file lies directly below its artifact's evidence directory. */
  predicate QualificationOk(input: Input, q: (string, string)) {
    BundlePath(q.0) && q.0 == QualificationPath(input.artifact.name, q.0)
  }

  ghost predicate HasArtifact(xs: seq<Member>, input: Input, sources: Sources) {
    exists x <- xs :: IsArtifact(x, input, sources)
  }

  ghost predicate HasEvidence(xs: seq<Member>, input: Input, sources: Sources, b: Maker) {
    exists x <- xs :: IsEvidence(x, input, sources, b)
  }

  ghost predicate Provided(xs: seq<Member>, input: Input, sources: Sources, b: Maker) {
    && PlainName(input.artifact.name)
    && HasArtifact(xs, input, sources) && (input.evidenceSource != "" ==> HasEvidence(xs, input, sources, b))
    && Placed(xs, input, input.qualification)
  }

  lemma ProvidedGrows(xs: seq<Member>, ys: seq<Member>, input: Input, sources: Sources, b: Maker)
    requires xs <= ys
    ensures HasArtifact(xs, input, sources) ==> HasArtifact(ys, input, sources)
    ensures HasEvidence(xs, input, sources, b) ==> HasEvidence(ys, input, sources, b)
    ensures MemberPaths(xs) <= MemberPaths(ys)
  {
    assert forall x <- xs :: x in ys;
  }

  /** Whatever was added comes from the input. */
  ghost predicate AddedFrom(xs: seq<Member>, before: seq<Member>, input: Input, sources: Sources, b: Maker) {
    before <= xs && forall x <- xs :: x in before || FromInput(x, input, sources, b)
  }

  /** Members within the size limits, with their running total. */
  ghost predicate Within(xs: seq<Member>, total: int64) {
    AllSmall(xs) && total as int == MemberTotal(xs) && 0 <= total <= MAX_BUNDLE
  }

  // ----- why a build may be refused -----

  function SizeOf(source: string, sources: Sources): nat {
    if source in sources then |sources[source]| else 0
  }

  function QualificationSize(qs: seq<(string, string)>, sources: Sources): nat {
    if qs == [] then 0 else QualificationSize(qs[..|qs| - 1], sources) + SizeOf(qs[|qs| - 1].1, sources)
  }

  lemma {:induction false} QualificationSizeGrows(qs: seq<(string, string)>, i: nat, sources: Sources)
    requires i <= |qs|
    ensures QualificationSize(qs[..i], sources) <= QualificationSize(qs, sources)
    decreases |qs|
  {
    if i == |qs| {
      assert qs[..i] == qs;
    } else {
      QualificationSizeGrows(qs[..|qs| - 1], i, sources);
      assert qs[..|qs| - 1][..i] == qs[..i];
    }
  }

  lemma QualificationSizeStep(qs: seq<(string, string)>, i: nat, sources: Sources)
    requires i < |qs|
    ensures QualificationSize(qs[..i + 1], sources) == QualificationSize(qs[..i], sources) + SizeOf(qs[i].1, sources)
    ensures QualificationSize(qs[..i + 1], sources) <= QualificationSize(qs, sources)
  {
    assert qs[..i + 1][..i] == qs[..i];
    QualificationSizeGrows(qs, i + 1, sources);
  }

  function RewrittenEvidence(input: Input, sources: Sources, b: Maker): Option<Bytes> {
    if input.evidenceSource !in sources || |sources[input.evidenceSource]| > MAX_EVIDENCE then None
    else b.evidence(sources[input.evidenceSource], input.artifact, ArtifactPath(input))
  }

  function EvidenceSize(input: Input, sources: Sources, b: Maker): nat {
    var e := RewrittenEvidence(input, sources, b);
    if input.evidenceSource == "" || e.None? then 0 else |e.value|
  }

  function InputSize(input: Input, sources: Sources, b: Maker): nat {
    SizeOf(input.artifactSource, sources) + EvidenceSize(input, sources, b) +
      QualificationSize(input.qualification, sources)
  }

  predicate BadArtifact(input: Input, sources: Sources, b: Maker) {
    || !BundlePath(ArtifactPath(input)) || SizeOf(input.artifactSource, sources) > MAX_FILE as int
    || input.artifactSource !in sources || b.codec.digest(sources[input.artifactSource]) != input.artifact.contentSha256
  }

  predicate BadEvidence(input: Input, sources: Sources, b: Maker) {
    var e := RewrittenEvidence(input, sources, b);
    input.evidenceSource != "" && (e.None? || |e.value| > MAX_FILE as int ||
                                   !BundlePath(EvidencePath(input.artifact.name)))
  }

  predicate BadQualification(input: Input, q: (string, string), sources: Sources) {
    !QualificationOk(input, q) || q.1 !in sources || SizeOf(q.1, sources) > MAX_FILE as int
  }

  /** An unsafe name, an unreadable or oversized source, a wrong digest, unbound evidence or a misplaced file. */
  ghost predicate BadInput(input: Input, sources: Sources, b: Maker) {
    || !InputOk(input, sources) || BadArtifact(input, sources, b) || BadEvidence(input, sources, b)
    || exists q <- input.qualification :: BadQualification(input, q, sources)
  }

  function InputsSize(inputs: seq<Input>, sources: Sources, b: Maker): nat {
    if inputs == [] then 0
    else InputsSize(inputs[..|inputs| - 1], sources, b) + InputSize(inputs[|inputs| - 1], sources, b)
  }

  lemma {:induction false} InputsSizeGrows(inputs: seq<Input>, i: nat, sources: Sources, b: Maker)
    requires i <= |inputs|
    ensures InputsSize(inputs[..i], sources, b) <= InputsSize(inputs, sources, b)
    decreases |inputs|
  {
    if i == |inputs| {
      assert inputs[..i] == inputs;
    } else {
      InputsSizeGrows(inputs[..|inputs| - 1], i, sources, b);
      assert inputs[..|inputs| - 1][..i] == inputs[..i];
    }
  }

  lemma InputsSizeStep(inputs: seq<Input>, i: nat, sources: Sources, b: Maker)
    requires i < |inputs|
    ensures InputsSize(inputs[..i + 1], sources, b) == InputsSize(inputs[..i], sources, b) +
            InputSize(inputs[i], sources, b)
    ensures InputsSize(inputs[..i + 1], sources, b) <= InputsSize(inputs, sources, b)
  {
    assert inputs[..i + 1][..i] == inputs[..i];
    InputsSizeGrows(inputs, i + 1, sources, b);
  }

  ghost predicate DistinctInputs(inputs: seq<Input>) {
    forall i, j :: 0 <= i < j < |inputs| ==> inputs[i].artifact.name != inputs[j].artifact.name
  }

  // ----- the members, as a function of the inputs -----

  function Content(source: string, sources: Sources): Bytes {
    if source in sources then sources[source] else []
  }

  function ArtifactMember(input: Input, sources: Sources): Member {
    Member(ArtifactPath(input), Content(input.artifactSource, sources), "artifact", input.artifact.name)
  }

  function EvidenceMembers(input: Input, sources: Sources, b: Maker): seq<Member> {
    var e := RewrittenEvidence(input, sources, b);
    if input.evidenceSource == "" || e.None? then []
    else [Member(EvidencePath(input.artifact.name), e.value, "evidence", input.artifact.name)]
  }

  /** A path that is already taken is skipped. */
  function WithQualification(before: seq<Member>, input: Input, qs: seq<(string, string)>,
                             sources: Sources): seq<Member> {
    if qs == [] then before
    else
      var xs, q := WithQualification(before, input, qs[..|qs| - 1], sources), qs[|qs| - 1];
      if q.0 in MemberPaths(xs) then xs else xs + [Member(q.0, Content(q.1, sources), "evidence", input.artifact.name)]
  }

  function WithInput(before: seq<Member>, input: Input, sources: Sources, b: Maker): seq<Member> {
    WithQualification(before + [ArtifactMember(input, sources)] + EvidenceMembers(input, sources, b), input,
                      input.qualification, sources)
  }

  function AllMembers(inputs: seq<Input>, sources: Sources, b: Maker): seq<Member> {
    if inputs == [] then []
    else WithInput(AllMembers(inputs[..|inputs| - 1], sources, b), inputs[|inputs| - 1], sources, b)
  }

  // ----- gathering -----

  /** One more member, unless the total grows too large. */
  method Add(xs: seq<Member>, total: int64, x: Member) returns (r: Result<(seq<Member>, int64)>)
    requires Within(xs, total) && Small(x)
    ensures r.Ok? ==> r.value.0 == xs + [x] && Within(r.value.0, r.value.1) &&
                      r.value.1 as int == total as int + |x.bytes|
    ensures r.Err? ==> total as int + |x.bytes| > MAX_BUNDLE as int
  {
    MemberTotalSnoc(xs, x);
    var grown := total + |x.bytes| as int64;
    if grown > MAX_BUNDLE {
      return Err;
    }
    return Ok((xs + [x], grown));
  }

  ghost predicate Placed(xs: seq<Member>, input: Input, qs: seq<(string, string)>) {
    forall q <- qs :: QualificationOk(input, q) && q.0 in MemberPaths(xs)
  }

  lemma PlacedStep(xs: seq<Member>, ys: seq<Member>, input: Input, i: nat)
    requires i < |input.qualification| && MemberPaths(xs) <= MemberPaths(ys) &&
             Placed(xs, input, input.qualification[..i])
    requires var q := input.qualification[i]; QualificationOk(input, q) && q.0 in MemberPaths(ys)
    ensures Placed(ys, input, input.qualification[..i + 1])
  {
    assert input.qualification[..i + 1] == input.qualification[..i] + [input.qualification[i]];
  }

  lemma AddedStep(xs: seq<Member>, before: seq<Member>, x: Member, input: Input, sources: Sources, b: Maker)
    requires AddedFrom(xs, before, input, sources, b) && FromInput(x, input, sources, b)
    ensures AddedFrom(xs + [x], before, input, sources, b)
  {
  }

  /** The first `n` qualification files have been taken care of. */
  ghost predicate QualificationDone(xs: seq<Member>, sum: int64, before: seq<Member>, total: int64, input: Input,
                                    n: nat, sources: Sources, b: Maker)
    requires n <= |input.qualification|
  {
    var qs := input.qualification[..n];
    && Within(xs, sum) && AddedFrom(xs, before, input, sources, b) && Placed(xs, input, qs)
    && xs == WithQualification(before, input, qs, sources)
    && sum as int <= total as int + QualificationSize(qs, sources)
  }

  lemma WithQualificationStep(before: seq<Member>, input: Input, i: nat, sources: Sources)
    requires i < |input.qualification|
    ensures var qs, q := input.qualification, input.qualification[i];
            var xs := WithQualification(before, input, qs[..i], sources);
            WithQualification(before, input, qs[..i + 1], sources) ==
            if q.0 in MemberPaths(xs) then xs
            else xs + [Member(q.0, Content(q.1, sources), "evidence", input.artifact.name)]
  {
    assert input.qualification[..i + 1][..i] == input.qualification[..i];
  }

  lemma QualificationIsFromInput(input: Input, i: nat, sources: Sources, b: Maker)
    requires i < |input.qualification| && input.qualification[i].1 in sources
    ensures var q := input.qualification[i];
            FromInput(Member(q.0, sources[q.1], "evidence", input.artifact.name), input, sources, b)
  {
    var q := input.qualification[i];
    assert q in input.qualification && IsQualification(Member(q.0, sources[q.1], "evidence", input.artifact.name),
                                                       input, q, sources);
  }

  lemma QualificationSkipped(xs: seq<Member>, sum: int64, before: seq<Member>, total: int64, input: Input, i: nat,
                             sources: Sources, b: Maker)
    requires i < |input.qualification| && QualificationDone(xs, sum, before, total, input, i, sources, b)
    requires var q := input.qualification[i]; QualificationOk(input, q) && q.0 in MemberPaths(xs)
    ensures QualificationDone(xs, sum, before, total, input, i + 1, sources, b)
  {
    WithQualificationStep(before, input, i, sources);
    QualificationSizeStep(input.qualification, i, sources);
    PlacedStep(xs, xs, input, i);
  }

  lemma QualificationTaken(xs: seq<Member>, sum: int64, before: seq<Member>, total: int64, input: Input, i: nat,
                           sources: Sources, b: Maker, x: Member, grown: int64)
    requires i < |input.qualification| && QualificationDone(xs, sum, before, total, input, i, sources, b)
    requires var q := input.qualification[i]; QualificationOk(input, q) && q.0 !in MemberPaths(xs) && q.1 in sources
    requires x == Member(input.qualification[i].0, sources[input.qualification[i].1], "evidence", input.artifact.name)
    requires Within(xs + [x], grown) && grown as int == sum as int + |x.bytes|
    ensures QualificationDone(xs + [x], grown, before, total, input, i + 1, sources, b)
  {
    WithQualificationStep(before, input, i, sources);
    QualificationSizeStep(input.qualification, i, sources);
    QualificationIsFromInput(input, i, sources, b);
    AddedStep(xs, before, x, input, sources, b);
    PathsGrow(xs, x);
    PlacedStep(xs, xs + [x], input, i);
  }

  /** The qualification files of one input; a path that is already taken is skipped. */
  method AddQualification(input: Input, sources: Sources, ghost b: Maker, before: seq<Member>, total: int64)
    returns (r: Result<(seq<Member>, int64)>)
    requires Within(before, total)
    ensures r.Ok? ==> Within(r.value.0, r.value.1) && AddedFrom(r.value.0, before, input, sources, b)
    ensures r.Ok? ==> Placed(r.value.0, input, input.qualification)
    ensures r.Ok? ==> r.value.0 == WithQualification(before, input, input.qualification, sources)
    ensures r.Ok? ==> r.value.1 as int <= total as int + QualificationSize(input.qualification, sources)
    ensures r.Err? ==> (exists q <- input.qualification :: BadQualification(input, q, sources)) ||
                       total as int + QualificationSize(input.qualification, sources) > MAX_BUNDLE as int
  {
    var xs, sum := before, total;
    for i := 0 to |input.qualification|
      invariant QualificationDone(xs, sum, before, total, input, i, sources, b)
    {
      var q := input.qualification[i];
      assert q in input.qualification;
      QualificationSizeStep(input.qualification, i, sources);
      if !QualificationOk(input, q) {
        return Err;
      }
      if q.0 in MemberPaths(xs) {
        QualificationSkipped(xs, sum, before, total, input, i, sources, b);
        continue;
      }
      var member := NewMember(q.0, q.1, "evidence", input.artifact.name, sources);
      if member.Err? {
        return Err;
      }
      var added := Add(xs, sum, member.value);
      if added.Err? {
        return Err;
      }
      QualificationTaken(xs, sum, before, total, input, i, sources, b, member.value, added.value.1);
      xs, sum := added.value.0, added.value.1;
    }
    assert input.qualification[..|input.qualification|] == input.qualification;
    return Ok((xs, sum));
  }

  lemma PathsGrow(xs: seq<Member>, x: Member)
    ensures MemberPaths(xs + [x]) == MemberPaths(xs) + {x.path}
  {
  }

  method AddArtifact(input: Input, sources: Sources, b: Maker, before: seq<Member>, total: int64)
    returns (r: Result<(seq<Member>, int64)>)
    requires Within(before, total) && InputOk(input, sources)
    ensures r.Ok? ==> Within(r.value.0, r.value.1) && AddedFrom(r.value.0, before, input, sources, b) &&
                      HasArtifact(r.value.0, input, sources)
    ensures r.Ok? ==> r.value.0 == before + [ArtifactMember(input, sources)]
    ensures r.Ok? ==> r.value.1 as int == total as int + SizeOf(input.artifactSource, sources)
    ensures r.Err? ==> BadArtifact(input, sources, b) ||
                       total as int + SizeOf(input.artifactSource, sources) > MAX_BUNDLE as int
  {
    var artifact := NewMember(ArtifactPath(input), input.artifactSource, "artifact", input.artifact.name, sources);
    if artifact.Err? || input.artifact.contentSha256 != b.codec.digest(artifact.value.bytes) {
      return Err;
    }
    r := Add(before, total, artifact.value);
    assert artifact.value in before + [artifact.value] && IsArtifact(artifact.value, input, sources);
  }

  method AddEvidence(input: Input, sources: Sources, b: Maker, before: seq<Member>, total: int64)
    returns (r: Result<(seq<Member>, int64)>)
    requires Within(before, total) && input.evidenceSource != "" && input.evidenceSource in sources
    ensures r.Ok? ==> Within(r.value.0, r.value.1) && AddedFrom(r.value.0, before, input, sources, b) &&
                      HasEvidence(r.value.0, input, sources, b)
    ensures r.Ok? ==> r.value.0 == before + EvidenceMembers(input, sources, b)
    ensures r.Ok? ==> r.value.1 as int == total as int + EvidenceSize(input, sources, b)
    ensures r.Err? ==> BadEvidence(input, sources, b) ||
                       total as int + EvidenceSize(input, sources, b) > MAX_BUNDLE as int
  {
    var rewritten := RewrittenEvidence(input, sources, b);
    if rewritten.None? || !BundlePath(EvidencePath(input.artifact.name)) || |rewritten.value| > MAX_FILE as int {
      return Err;
    }
    var evidence := Member(EvidencePath(input.artifact.name), rewritten.value, "evidence", input.artifact.name);
    r := Add(before, total, evidence);
    assert evidence in before + [evidence] && IsEvidence(evidence, input, sources, b);
  }

  /** The members of one input, in the order they are added. */
  method AddInput(input: Input, sources: Sources, b: Maker, before: seq<Member>, total: int64)
    returns (r: Result<(seq<Member>, int64)>)
    requires Within(before, total)
    ensures r.Ok? ==> Within(r.value.0, r.value.1) && AddedFrom(r.value.0, before, input, sources, b) &&
                      Provided(r.value.0, input, sources, b)
    ensures r.Ok? ==> r.value.0 == WithInput(before, input, sources, b)
    ensures r.Ok? ==> r.value.1 as int <= total as int + InputSize(input, sources, b)
    ensures r.Err? ==> BadInput(input, sources, b) || total as int + InputSize(input, sources, b) > MAX_BUNDLE as int
  {
    if !InputOk(input, sources) {
      return Err;
    }
    r := AddArtifact(input, sources, b, before, total);
    if r.Err? {
      return;
    }
    ghost var first := r.value.0;
    if input.evidenceSource != "" {
      r := AddEvidence(input, sources, b, r.value.0, r.value.1);
      if r.Err? {
        return;
      }
      ProvidedGrows(first, r.value.0, input, sources, b);
    }
    ghost var second := r.value.0;
    assert second == before + [ArtifactMember(input, sources)] + EvidenceMembers(input, sources, b);
    r := AddQualification(input, sources, b, r.value.0, r.value.1);
    if r.Ok? {
      ProvidedGrows(second, r.value.0, input, sources, b);
    }
  }

  // ----- the whole build -----

  function ReleaseArtifactOf(input: Input): ReleaseArtifact {
    ReleaseArtifact(input.artifact, ArtifactPath(input),
                    if input.evidenceSource != "" then EvidencePath(input.artifact.name) else "")
  }

  function ReleaseArtifacts(inputs: seq<Input>): seq<ReleaseArtifact> {
    seq(|inputs|, i requires 0 <= i < |inputs| => ReleaseArtifactOf(inputs[i]))
  }

  /** Every input is represented, and every member comes from an input. */
  ghost predicate Gathered(xs: seq<Member>, inputs: seq<Input>, sources: Sources, b: Maker) {
    Traced(xs, inputs, sources, b) && AllProvided(xs, inputs, sources, b)
  }

  lemma StillProvided(xs: seq<Member>, ys: seq<Member>, input: Input, sources: Sources, b: Maker)
    requires xs <= ys && Provided(xs, input, sources, b)
    ensures Provided(ys, input, sources, b)
  {
    ProvidedGrows(xs, ys, input, sources, b);
  }

  lemma StillTraced(xs: seq<Member>, ys: seq<Member>, inputs: seq<Input>, more: seq<Input>, input: Input,
                    sources: Sources, b: Maker)
    requires Traced(xs, inputs, sources, b) && AddedFrom(ys, xs, input, sources, b)
    requires input in more && forall i <- inputs :: i in more
    ensures Traced(ys, more, sources, b)
  {
    forall y <- ys ensures IsCompanionMember(y) || exists i <- more :: FromInput(y, i, sources, b) {
      if y in xs && !IsCompanionMember(y) {
        var i :| i in inputs && FromInput(y, i, sources, b);
        assert i in more;
      }
    }
  }

  ghost predicate AllProvided(xs: seq<Member>, inputs: seq<Input>, sources: Sources, b: Maker) {
    forall input <- inputs :: Provided(xs, input, sources, b)
  }

  lemma AllStillProvided(xs: seq<Member>, ys: seq<Member>, inputs: seq<Input>, sources: Sources, b: Maker)
    requires xs <= ys && AllProvided(xs, inputs, sources, b)
    ensures AllProvided(ys, inputs, sources, b)
  {
    forall input <- inputs ensures Provided(ys, input, sources, b) {
      StillProvided(xs, ys, input, sources, b);
    }
  }

  lemma PrefixGrows<T>(s: seq<T>, i: nat)
    requires i < |s|
    ensures s[i] in s[..i + 1] && forall x <- s[..i] :: x in s[..i + 1]
  {
    assert s[..i + 1] == s[..i] + [s[i]];
  }

  lemma ForAllStep<T>(s: seq<T>, i: nat, p: T -> bool)
    requires i < |s| && (forall x <- s[..i] :: p(x)) && p(s[i])
    ensures forall x <- s[..i + 1] :: p(x)
  {
  }

  lemma GatheredStep(xs: seq<Member>, ys: seq<Member>, inputs: seq<Input>, i: nat, sources: Sources, b: Maker)
    requires i < |inputs| && Gathered(xs, inputs[..i], sources, b)
    requires AddedFrom(ys, xs, inputs[i], sources, b) && Provided(ys, inputs[i], sources, b)
    ensures Gathered(ys, inputs[..i + 1], sources, b)
  {
    PrefixGrows(inputs, i);
    assert Traced(ys, inputs[..i + 1], sources, b) by {
      StillTraced(xs, ys, inputs[..i], inputs[..i + 1], inputs[i], sources, b);
    }
    assert AllProvided(ys, inputs[..i + 1], sources, b) by {
      AllStillProvided(xs, ys, inputs[..i], sources, b);
      ForAllStep(inputs, i, input => Provided(ys, input, sources, b));
    }
  }

  lemma SeenStep(inputs: seq<Input>, i: nat)
    requires i < |inputs| && DistinctInputs(inputs[..i])
    ensures var seen := set input <- inputs[..i] :: input.artifact.name;
            && (if inputs[i].artifact.name in seen then !DistinctInputs(inputs) else DistinctInputs(inputs[..i + 1]))
            && (set input <- inputs[..i + 1] :: input.artifact.name) == seen + {inputs[i].artifact.name}
  {
    var seen := set input <- inputs[..i] :: input.artifact.name;
    assert inputs[..i + 1] == inputs[..i] + [inputs[i]];
    if inputs[i].artifact.name in seen {
      var x :| x in inputs[..i] && x.artifact.name == inputs[i].artifact.name;
      var j :| 0 <= j < i && inputs[j] == x;
    } else {
      forall j | 0 <= j < i ensures inputs[j].artifact.name != inputs[i].artifact.name {
        assert inputs[..i][j] in inputs[..i];
      }
    }
  }

  /** The first `n` inputs have been gathered. */
  ghost predicate InputsDone(xs: seq<Member>, total: int64, seen: set<string>, inputs: seq<Input>, n: nat,
                             sources: Sources, b: Maker)
    requires n <= |inputs|
  {
    var done := inputs[..n];
    && Within(xs, total) && Gathered(xs, done, sources, b) && DistinctInputs(done)
    && seen == (set input <- done :: input.artifact.name)
    && xs == AllMembers(done, sources, b) && total as int <= InputsSize(done, sources, b)
  }

  lemma AllMembersStep(inputs: seq<Input>, i: nat, sources: Sources, b: Maker)
    requires i < |inputs|
    ensures AllMembers(inputs[..i + 1], sources, b) ==
            WithInput(AllMembers(inputs[..i], sources, b), inputs[i], sources, b)
  {
    assert inputs[..i + 1][..i] == inputs[..i];
  }

  lemma InputTaken(xs: seq<Member>, total: int64, seen: set<string>, inputs: seq<Input>, i: nat, sources: Sources,
                   b: Maker, ys: seq<Member>, grown: int64)
    requires i < |inputs| && InputsDone(xs, total, seen, inputs, i, sources, b) && inputs[i].artifact.name !in seen
    requires Within(ys, grown) && AddedFrom(ys, xs, inputs[i], sources, b) && Provided(ys, inputs[i], sources, b)
    requires ys == WithInput(xs, inputs[i], sources, b)
    requires grown as int <= total as int + InputSize(inputs[i], sources, b)
    ensures InputsDone(ys, grown, seen + {inputs[i].artifact.name}, inputs, i + 1, sources, b)
  {
    AllMembersStep(inputs, i, sources, b);
    InputsSizeStep(inputs, i, sources, b);
    SeenStep(inputs, i);
    GatheredStep(xs, ys, inputs, i, sources, b);
  }

  method GatherInputs(inputs: seq<Input>, sources: Sources, b: Maker) returns (r: Result<(seq<Member>, int64)>)
    ensures r.Ok? ==> Within(r.value.0, r.value.1) && Gathered(r.value.0, inputs, sources, b)
    ensures r.Ok? ==> r.value.0 == AllMembers(inputs, sources, b)
    ensures r.Ok? ==> DistinctInputs(inputs) && r.value.1 as int <= InputsSize(inputs, sources, b)
    ensures r.Err? ==> !DistinctInputs(inputs) || (exists input <- inputs :: BadInput(input, sources, b)) ||
                       InputsSize(inputs, sources, b) > MAX_BUNDLE as int
  {
    var xs: seq<Member>, total: int64 := [], 0;
    var seen: set<string> := {};
    for i := 0 to |inputs|
      invariant InputsDone(xs, total, seen, inputs, i, sources, b)
    {
      SeenStep(inputs, i);
      if inputs[i].artifact.name in seen {
        return Err;
      }
      var added := AddInput(inputs[i], sources, b, xs, total);
      if added.Err? {
        InputsSizeStep(inputs, i, sources, b);
        assert inputs[i] in inputs;
        return Err;
      }
      InputTaken(xs, total, seen, inputs, i, sources, b, added.value.0, added.value.1);
      seen := seen + {inputs[i].artifact.name};
      xs, total := added.value.0, added.value.1;
    }
    assert inputs[..|inputs|] == inputs;
    return Ok((xs, total));
  }

  lemma CompanionStep(xs: seq<Member>, x: Option<Member>, inputs: seq<Input>, sources: Sources, b: Maker)
    requires Gathered(xs, inputs, sources, b) && (x.Some? ==> IsCompanionMember(x.value))
    ensures Gathered(xs + Optional(x), inputs, sources, b)
  {
    AllStillProvided(xs, xs + Optional(x), inputs, sources, b);
  }

  predicate BadCompanion(path: string, source: string, sources: Sources) {
    source != "" && (source !in sources || SizeOf(source, sources) > MAX_FILE as int || !BundlePath(path))
  }

  /** An optional companion binary, at its fixed path. */
  method AddCompanion(path: string, source: string, kind: string, sources: Sources, before: seq<Member>, total: int64)
    returns (r: Result<(seq<Member>, int64, Option<Member>)>)
    requires "" !in sources && Within(before, total)
    ensures r.Ok? ==> Within(r.value.0, r.value.1)
    ensures r.Ok? ==> r.value.2 == Companion(path, source, kind, sources) && AllSmall(Optional(r.value.2))
    ensures r.Ok? ==> r.value.0 == before + Optional(r.value.2) && HasCompanion(r.value.0, path, source, kind, sources)
    ensures r.Ok? ==> r.value.1 as int == total as int + SizeOf(source, sources)
    ensures r.Err? ==> BadCompanion(path, source, sources) || total as int + SizeOf(source, sources) > MAX_BUNDLE as int
  {
    if source == "" {
      assert before + [] == before;
      return Ok((before, total, None));
    }
    var member := NewMember(path, source, kind, "", sources);
    if member.Err? {
      return Err;
    }
    var added := Add(before, total, member.value);
    if added.Err? {
      return Err;
    }
    return Ok((added.value.0, added.value.1, Some(member.value)));
  }

  function Declare(x: Option<Member>, digest: Bytes -> string): Option<File>
    requires AllSmall(Optional(x))
  {
    if x.None? then None else assert Optional(x)[0] == x.value; Some(FileOf(x.value, digest))
  }

  function ArtifactName(a: ReleaseArtifact): string { a.artifact.name }

  function MakeManifest(meta: Metadata, inputs: seq<Input>, xs: seq<Member>, streamDeck: Option<Member>,
                        status: Option<Member>, digest: Bytes -> string): Manifest
    requires AllSmall(xs) && AllSmall(Optional(streamDeck)) && AllSmall(Optional(status))
  {
    Manifest(FORMAT_VERSION, meta.releaseVersion, meta.sourceCommit, meta.buildWorkflow, meta.siteApiVersion,
             meta.schemaVersion, ABI_VERSION, ARCHITECTURE, meta.controllerMin, meta.controllerMax,
             meta.controllerSha256, meta.controllerSize, meta.policyVersion,
             SortBy(ReleaseArtifacts(inputs), ArtifactName), SortBy(FilesOf(xs, digest), FilePath),
             Declare(streamDeck, digest), Declare(status, digest))
  }

  datatype Built = Built(manifest: Manifest, members: seq<Member>, archive: seq<Entry>)

  /** A companion binary that was asked for is among the members, with its source's bytes. */
  predicate HasCompanion(xs: seq<Member>, path: string, source: string, kind: string, sources: Sources) {
    source != "" ==> source in sources && Member(path, sources[source], kind, "") in xs
  }

  /** Every field of the metadata is in the manifest's field of that name. */
  predicate SaysMetadata(m: Manifest, meta: Metadata) {
    && m.releaseVersion == meta.releaseVersion && m.sourceCommit == meta.sourceCommit
    && m.buildWorkflow == meta.buildWorkflow && m.siteApiVersion == meta.siteApiVersion
    && m.schemaVersion == meta.schemaVersion && m.policyVersion == meta.policyVersion
    && m.controllerMin == meta.controllerMin && m.controllerMax == meta.controllerMax
    && m.controllerSha256 == meta.controllerSha256 && m.controllerSize == meta.controllerSize
  }

  lemma CompanionsAreSaid(meta: Metadata, inputs: seq<Input>, xs: seq<Member>, streamDeck: string, status: string,
                          sources: Sources, digest: Bytes -> string)
    requires AllSmall(xs) && AllSmall(Optional(StreamDeck(StreamDeckSource(streamDeck), sources)))
    requires AllSmall(Optional(Status(status, sources)))
    ensures var m := MakeManifest(meta, inputs, xs, StreamDeck(StreamDeckSource(streamDeck), sources),
                                  Status(status, sources), digest);
            (m.streamDeck.None? <==> TrimSpace(streamDeck) == "") && (m.status.None? <==> status == "")
  {
    assert streamDeck == "" ==> TrimLeft(streamDeck) == "" && TrimRight("") == "";
  }

  lemma MetadataIsSaid(meta: Metadata, inputs: seq<Input>, xs: seq<Member>, deck: Option<Member>, panel: Option<Member>,
                       digest: Bytes -> string)
    requires AllSmall(xs) && AllSmall(Optional(deck)) && AllSmall(Optional(panel))
    ensures SaysMetadata(MakeManifest(meta, inputs, xs, deck, panel, digest), meta)
  {
  }

  /** What a built release is, in terms of its inputs and its two companion binaries. */
  ghost predicate BuiltFrom(r: Built, inputs: seq<Input>, meta: Metadata, key: string, keyId: string, deck: string,
                            panel: string, sources: Sources, b: Maker) {
    && HasCompanion(r.members, STREAMDECK_PATH, deck, STREAMDECK_KIND, sources)
    && HasCompanion(r.members, STATUS_PATH, panel, STATUS_KIND, sources)
    && Assembled(r.manifest, r.members, b.codec.digest) && Gathered(r.members, inputs, sources, b)
    && DistinctInputs(inputs)
    && SaysMetadata(r.manifest, meta)
    && ValidKeyId(keyId) && AllSmall(Sorted(r.members))
    && Writable(b, r.manifest, key, keyId)
    && r.archive == Archive(b, r.manifest, key, keyId, r.members)
  }

  function StreamDeckSource(path: string): string {
    if TrimSpace(path) == "" then "" else path
  }

  function Companion(path: string, source: string, kind: string, sources: Sources): Option<Member> {
    if source == "" then None else Some(Member(path, Content(source, sources), kind, ""))
  }

  function Optional(x: Option<Member>): seq<Member> {
    if x.None? then [] else [x.value]
  }

  function StreamDeck(source: string, sources: Sources): Option<Member> {
    Companion(STREAMDECK_PATH, source, STREAMDECK_KIND, sources)
  }

  function Status(source: string, sources: Sources): Option<Member> {
    Companion(STATUS_PATH, source, STATUS_KIND, sources)
  }

  function ReleaseMembers(inputs: seq<Input>, deck: string, panel: string, sources: Sources, b: Maker): seq<Member> {
    AllMembers(inputs, sources, b) + Optional(StreamDeck(deck, sources)) + Optional(Status(panel, sources))
  }

  ghost predicate Describes(m: Manifest, inputs: seq<Input>, meta: Metadata, deck: string, panel: string,
                            sources: Sources, b: Maker) {
    var xs := ReleaseMembers(inputs, deck, panel, sources, b);
    && AllSmall(xs) && AllSmall(Optional(StreamDeck(deck, sources))) && AllSmall(Optional(Status(panel, sources)))
    && m == MakeManifest(meta, inputs, xs, StreamDeck(deck, sources), Status(panel, sources), b.codec.digest)
  }

  /** The reasons for refusing to build. */
  ghost predicate RefusesToBuild(inputs: seq<Input>, meta: Metadata, keyId: string, deck: string, panel: string,
                                 sources: Sources, b: Maker) {
    || !ValidKeyId(keyId) || inputs == [] || !DistinctInputs(inputs) ||
      (exists input <- inputs :: BadInput(input, sources, b))
    || BadCompanion(STREAMDECK_PATH, deck, sources) || BadCompanion(STATUS_PATH, panel, sources)
    || InputsSize(inputs, sources, b) + SizeOf(deck, sources) + SizeOf(panel, sources) > MAX_BUNDLE as int
    || exists m :: Describes(m, inputs, meta, deck, panel, sources, b) && !ValidManifest(m)
  }

  lemma NamesAreDistinct(inputs: seq<Input>)
    requires DistinctInputs(inputs)
    ensures DistinctBy(ReleaseArtifacts(inputs), ArtifactName)
  {
  }

  /** The manifest with its two lists sorted; a repeated path leaves it invalid in whatever order. */
  method SortedManifest(meta: Metadata, inputs: seq<Input>, xs: seq<Member>, deck: Option<Member>,
                        panel: Option<Member>, digest: Bytes -> string) returns (m: Manifest)
    requires AllSmall(xs) && AllSmall(Optional(deck)) && AllSmall(Optional(panel)) && DistinctInputs(inputs)
    ensures DistinctPaths(m.files) <==> DistinctPaths(MakeManifest(meta, inputs, xs, deck, panel, digest).files)
    ensures DistinctPaths(m.files) ==> m == MakeManifest(meta, inputs, xs, deck, panel, digest)
  {
    var artifacts := SortSlice(ReleaseArtifacts(inputs), ArtifactName);
    NamesAreDistinct(inputs);
    SortedSlice(ReleaseArtifacts(inputs), artifacts, ArtifactName);
    var files := SortSlice(FilesOf(xs, digest), FilePath);
    SortedSlice(FilesOf(xs, digest), files, FilePath);
    assert DistinctBy(files, FilePath) <==> DistinctPaths(files);
    assert DistinctBy(SortBy(FilesOf(xs, digest), FilePath), FilePath) <==>
           DistinctPaths(SortBy(FilesOf(xs, digest), FilePath));
    m := MakeManifest(meta, inputs, xs, deck, panel, digest).(artifacts := artifacts, files := files);
  }

  lemma MembersAreDistinct(xs: seq<Member>, digest: Bytes -> string)
    requires AllSmall(xs) && DistinctPaths(SortBy(FilesOf(xs, digest), FilePath))
    ensures DistinctBy(xs, MemberPath)
  {
    var fs := FilesOf(xs, digest);
    SortByKeeps(fs, FilePath);
    DistinctInAnyOrder(SortBy(fs, FilePath), fs, FilePath);
    forall i, j | 0 <= i < j < |xs| ensures MemberPath(xs[i]) != MemberPath(xs[j]) {
      assert FilePath(fs[i]) != FilePath(fs[j]);
    }
  }

  method WriteMembers(head: seq<Entry>, xs: seq<Member>) returns (archive: seq<Entry>)
    requires AllSmall(xs)
    ensures archive == head + EntriesOf(xs)
  {
    archive := head;
    ghost var all := EntriesOf(xs);
    for i := 0 to |xs|
      invariant archive == head + all[..i]
    {
      assert all[..i + 1] == all[..i] + [all[i]];
      archive := archive + [EntryOf(xs[i])];
    }
    assert all[..|xs|] == all;
  }

  /** The members by path, in the order of the manifest's files. */
  method SortMembers(xs: seq<Member>, ghost digest: Bytes -> string) returns (sorted: seq<Member>)
    requires AllSmall(xs) && DistinctPaths(SortBy(FilesOf(xs, digest), FilePath))
    ensures sorted == Sorted(xs) && AllSmall(sorted)
  {
    sorted := SortSlice(xs, MemberPath);
    MembersAreDistinct(xs, digest);
    SortedSlice(xs, sorted, MemberPath);
    SortCommutes(xs, digest);
  }

  /** `writeReleaseArchive`, with `fault` for a write that fails. */
  method WriteReleaseArchive(b: Maker, m: Manifest, key: string, keyId: string, xs: seq<Member>, fails: Failures)
    returns (archive: seq<Entry>, fault: bool)
    requires AllSmall(xs) && DistinctPaths(SortBy(FilesOf(xs, b.codec.digest), FilePath))
    ensures AllSmall(Sorted(xs))
    ensures !fault ==> Writable(b, m, key, keyId) && archive == Archive(b, m, key, keyId, xs)
    ensures fault ==> Fails(fails) || !Writable(b, m, key, keyId)
  {
    var sorted := SortMembers(xs, b.codec.digest);
    if fails(0) || !Writable(b, m, key, keyId) {
      return [], true;
    }
    var manifest, signature := HeadEntry(MANIFEST_NAME, b.encode(m)),
      HeadEntry(SIGNATURE_NAME, SignatureBytes(b, m, key, keyId));
    archive := WriteMembers([manifest, signature], sorted);
    fault := false;
  }

  /** The inputs' members and the two companions. */
  method GatherMembers(inputs: seq<Input>, deckSource: string, panelSource: string, sources: Sources, b: Maker)
    returns (r: Result<(seq<Member>, Option<Member>, Option<Member>)>)
    requires "" !in sources
    ensures r.Ok? ==> r.value.0 == ReleaseMembers(inputs, deckSource, panelSource, sources, b)
    ensures r.Ok? ==> r.value.1 == StreamDeck(deckSource, sources) && r.value.2 == Status(panelSource, sources)
    ensures r.Ok? ==> AllSmall(r.value.0) && AllSmall(Optional(r.value.1)) && AllSmall(Optional(r.value.2)) &&
                      MemberTotal(r.value.0) <= MAX_BUNDLE as int
    ensures r.Ok? ==> Gathered(r.value.0, inputs, sources, b) && DistinctInputs(inputs)
    ensures r.Ok? ==> HasCompanion(r.value.0, STREAMDECK_PATH, deckSource, STREAMDECK_KIND, sources) &&
                      HasCompanion(r.value.0, STATUS_PATH, panelSource, STATUS_KIND, sources)
    ensures r.Err? ==> || !DistinctInputs(inputs) || (exists input <- inputs :: BadInput(input, sources, b))
                       || BadCompanion(STREAMDECK_PATH, deckSource, sources)
                       || BadCompanion(STATUS_PATH, panelSource, sources)
                       || InputsSize(inputs, sources, b) + SizeOf(deckSource, sources) +
                          SizeOf(panelSource, sources) > MAX_BUNDLE as int
  {
    var gathered := GatherInputs(inputs, sources, b);
    if gathered.Err? {
      return Err;
    }
    var deck := AddCompanion(STREAMDECK_PATH, deckSource, STREAMDECK_KIND, sources, gathered.value.0,
                             gathered.value.1);
    if deck.Err? {
      return Err;
    }
    CompanionStep(gathered.value.0, deck.value.2, inputs, sources, b);
    var panel := AddCompanion(STATUS_PATH, panelSource, STATUS_KIND, sources, deck.value.0, deck.value.1);
    if panel.Err? {
      return Err;
    }
    CompanionStep(deck.value.0, panel.value.2, inputs, sources, b);
    assert deck.value.0 <= panel.value.0;
    return Ok((panel.value.0, deck.value.2, panel.value.2));
  }

  /** `fault` reports a failed write of the archive. */
  method BuildReleaseBundle(inputs: seq<Input>, meta: Metadata, key: string, keyId: string, streamDeck: string,
                            status: string, sources: Sources, b: Maker, fails: Failures)
    returns (r: Result<Built>, fault: bool)
    requires "" !in sources
    ensures fault ==> r.Err? && (Fails(fails) || exists m :: !Writable(b, m, key, keyId))
    ensures r.Ok? ==>
              BuiltFrom(r.value, inputs, meta, key, keyId, StreamDeckSource(streamDeck), status, sources, b)
    ensures r.Ok? ==> r.value.members == ReleaseMembers(inputs, StreamDeckSource(streamDeck), status, sources, b)
    ensures r.Ok? ==> Describes(r.value.manifest, inputs, meta, StreamDeckSource(streamDeck), status, sources, b)
    ensures r.Ok? ==> (r.value.manifest.streamDeck.None? <==> TrimSpace(streamDeck) == "") &&
                      (r.value.manifest.status.None? <==> status == "")
    ensures r.Err? && !fault ==> RefusesToBuild(inputs, meta, keyId, StreamDeckSource(streamDeck), status, sources, b)
  {
    r, fault := Err, false;
    if !ValidKeyId(keyId) || inputs == [] {
      return;
    }
    var gathered := GatherMembers(inputs, StreamDeckSource(streamDeck), status, sources, b);
    if gathered.Err? {
      return;
    }
    var (members, deck, panel) := gathered.value;
    var manifest := SortedManifest(meta, inputs, members, deck, panel, b.codec.digest);
    ghost var described := MakeManifest(meta, inputs, members, deck, panel, b.codec.digest);
    assert Describes(described, inputs, meta, StreamDeckSource(streamDeck), status, sources, b);
    MetadataIsSaid(meta, inputs, members, deck, panel, b.codec.digest);
    CompanionsAreSaid(meta, inputs, members, streamDeck, status, sources, b.codec.digest);
    var valid := ValidateReleaseManifest(manifest);
    if !valid {
      return;
    }
    var archive;
    archive, fault := WriteReleaseArchive(b, manifest, key, keyId, members, fails);
    if !fault {
      r := Ok(Built(manifest, members, archive));
    }
  }

  // ----- every source ends up at its path -----

  lemma {:induction false} SlashLeavesEmpty(path: string)
    requires path != "" && path[|path| - 1] == '/'
    ensures "" in Split(path, '/')
    decreases |path|
  {
    var i := IndexOf(path, '/');
    assert i < |path| by {
      assert path[|path| - 1] in path;
    }
    if i < |path| - 1 {
      SlashLeavesEmpty(path[i + 1..]);
    } else {
      SplitWhole("", '/');
      assert path[i + 1..] == "";
    }
  }

  /** The last component of a safe path is a plain name. */
  lemma BaseOfSafe(path: string)
    requires BundlePath(path)
    ensures Base(path) != "" && Base(path) != "." && Base(path) != ".." && '/' !in Base(path)
  {
    BundlePathIff(path);
    PlainBase(path);
  }

  lemma PlainBase(path: string)
    requires path != "" && Plain(path)
    ensures Base(path) in Split(path, '/')
  {
    var parts := Split(path, '/');
    assert parts[|parts| - 1] in parts;
    if path[|path| - 1] == '/' {
      SlashLeavesEmpty(path);
    }
  }

  lemma SplitThree(a: string, b: string, c: string)
    requires '/' !in a && '/' !in b && '/' !in c
    ensures Split(a + "/" + b + "/" + c, '/') == [a, b, c]
  {
    assert a + "/" + b + "/" + c == a + ['/'] + (b + ['/'] + c);
    SplitHead(a, '/', b + ['/'] + c);
    SplitHead(b, '/', c);
    SplitWhole(c, '/');
  }

  lemma SplitTwo(a: string, b: string)
    requires '/' !in a && '/' !in b
    ensures Split(a + "/" + b, '/') == [a, b]
  {
    assert a + "/" + b == a + ['/'] + b;
    SplitHead(a, '/', b);
    SplitWhole(b, '/');
  }

  lemma QualificationParts(input: Input, q: (string, string))
    requires PlainName(input.artifact.name) && QualificationOk(input, q)
    ensures Split(q.0, '/') == ["evidence", input.artifact.name, Base(q.0)]
  {
    BaseOfSafe(q.0);
    var joined := "evidence" + "/" + input.artifact.name + "/" + Base(q.0);
    SplitThree("evidence", input.artifact.name, Base(q.0));
    PlainIsClean(joined);
  }

  lemma EvidenceParts(name: string)
    requires PlainName(name)
    ensures EvidencePath(name) == "evidence" + "/" + (name + ".json")
    ensures PlainName(name + ".json") && Split(EvidencePath(name), '/') == ["evidence", name + ".json"]
  {
    JsonIsPlain(name);
    PartsAreSafe("evidence", name + ".json", name);
  }

  lemma JsonIsPlain(name: string)
    requires PlainName(name)
    ensures PlainName(name + ".json")
  {
    assert |name + ".json"| >= 6;
  }

  lemma FirstLetter(path: string)
    ensures var head := Split(path, '/')[0]; head != "" ==> path != "" && path[0] == head[0]
  {
  }

  lemma CompanionIsElsewhere(x: Member)
    requires IsCompanionMember(x)
    ensures Split(x.path, '/')[0] != "evidence"
  {
    assert STREAMDECK_PATH[0] == 'c' && STATUS_PATH[0] == 'c';
    FirstLetter(x.path);
    assert "evidence"[0] == 'e';
  }

  /** A member at a qualification file's path, of the kind and artifact the manifest checks, is that file. */
  lemma QualificationIsKept(x: Member, owner: Input, input: Input, q: (string, string), sources: Sources, b: Maker)
    requires PlainName(input.artifact.name) && PlainName(owner.artifact.name) && QualificationOk(input, q) &&
             x.path == q.0
    requires FromInput(x, owner, sources, b) && FileArtifact(x.path, x.kind) == Some(x.artifact)
    ensures x.artifact == input.artifact.name == owner.artifact.name
    ensures exists p <- owner.qualification :: p.0 == q.0 && IsQualification(x, owner, p, sources)
  {
    QualificationParts(input, q);
    EvidenceParts(owner.artifact.name);
  }

  ghost predicate DistinctKeys(qs: seq<(string, string)>) {
    forall p, q :: p in qs && q in qs && p.0 == q.0 ==> p == q
  }

  lemma NameIdentifiesInput(inputs: seq<Input>, a: Input, c: Input)
    requires DistinctInputs(inputs) && a in inputs && c in inputs && a.artifact.name == c.artifact.name
    ensures a == c
  {
    var i :| 0 <= i < |inputs| && inputs[i] == a;
    var j :| 0 <= j < |inputs| && inputs[j] == c;
  }

  lemma OwnerOf(r: Built, inputs: seq<Input>, sources: Sources, b: Maker, x: Member, input: Input, q: (string, string))
    returns (owner: Input)
    requires Gathered(r.members, inputs, sources, b) && x in r.members && x.path == q.0
    requires input in inputs && q in input.qualification
    ensures owner in inputs && FromInput(x, owner, sources, b)
  {
    assert Provided(r.members, input, sources, b);
    if IsCompanionMember(x) {
      CompanionIsElsewhere(x);
      QualificationParts(input, q);
    }
    owner :| owner in inputs && FromInput(x, owner, sources, b);
  }

  lemma MemberIsChecked(m: Manifest, xs: seq<Member>, digest: Bytes -> string, x: Member)
    requires FilesOk(m) && AllSmall(xs) && m.files == SortBy(FilesOf(xs, digest), FilePath) && x in xs
    ensures Small(x) && FileOk(m, FileOf(x, digest))
  {
    var fs := FilesOf(xs, digest);
    var i :| 0 <= i < |xs| && xs[i] == x;
    SortByKeeps(fs, FilePath);
    assert fs[i] in multiset(fs);
    assert fs[i] in m.files;
  }

  /** The bytes of every qualification file are those at its path. */
  lemma QualificationBytes(r: Built, inputs: seq<Input>, sources: Sources, b: Maker, input: Input, q: (string, string))
    requires Assembled(r.manifest, r.members, b.codec.digest) && Gathered(r.members, inputs, sources, b) &&
             DistinctInputs(inputs)
    requires input in inputs && q in input.qualification && DistinctKeys(input.qualification)
    ensures exists x <- r.members :: IsQualification(x, input, q, sources)
  {
    assert Provided(r.members, input, sources, b) && q.0 in MemberPaths(r.members);
    var x :| x in r.members && x.path == q.0;
    var owner := OwnerOf(r, inputs, sources, b, x, input, q);
    assert Provided(r.members, owner, sources, b);
    MemberIsChecked(r.manifest, r.members, b.codec.digest, x);
    NotACompanion(r.manifest, x, owner, b, sources);
    QualificationIsKept(x, owner, input, q, sources, b);
    NameIdentifiesInput(inputs, owner, input);
  }

  lemma NotACompanion(m: Manifest, x: Member, owner: Input, b: Maker, sources: Sources)
    requires Small(x) && FileOk(m, FileOf(x, b.codec.digest)) && FromInput(x, owner, sources, b)
    ensures FileArtifact(x.path, x.kind) == Some(x.artifact)
  {
    assert x.kind == "artifact" || x.kind == "evidence";
    KindsDiffer(x.kind);
  }

  lemma KindsDiffer(kind: string)
    requires kind == "artifact" || kind == "evidence"
    ensures kind != STREAMDECK_KIND && kind != STATUS_KIND
  {
    assert |kind| == 8 && |STREAMDECK_KIND| == 9 && |STATUS_KIND| == 16;
  }

  lemma TreeNameIsPlain(tree: string)
    requires tree in TREES
    ensures PlainName(tree)
  {
    assert tree == "artifacts" || tree == "evidence" || tree == "companion";
  }

  lemma PartsAreSafe(tree: string, a: string, b: string)
    requires tree in TREES && PlainName(a) && PlainName(b)
    ensures BundlePath(tree + "/" + a) && Split(tree + "/" + a, '/') == [tree, a]
    ensures BundlePath(tree + "/" + a + "/" + b) && Split(tree + "/" + a + "/" + b, '/') == [tree, a, b]
  {
    TreeNameIsPlain(tree);
    SplitTwo(tree, a);
    SplitThree(tree, a, b);
    BundlePathIff(tree + "/" + a);
    BundlePathIff(tree + "/" + a + "/" + b);
  }

  lemma BaseOfName(name: string)
    requires PlainName(name)
    ensures Base(name) == name
  {
    SplitWhole(name, '/');
  }

  lemma BaseOfPath(tree: string, a: string, b: string)
    requires tree in TREES && PlainName(a) && PlainName(b)
    ensures Base(tree + "/" + a + "/" + b) == b
  {
    PartsAreSafe(tree, a, b);
    var path := tree + "/" + a + "/" + b;
    assert path[|path| - 1] == b[|b| - 1];
    assert b[|b| - 1] in b;
  }

  lemma SafeIsClean(path: string)
    requires BundlePath(path)
    ensures Clean(path) == path
  {
  }

  /** A qualification file lies at evidence/ARTIFACT/FILE, and at no other path. */
  lemma QualificationOkIff(input: Input, q: (string, string))
    requires PlainName(input.artifact.name)
    ensures QualificationOk(input, q) <==>
            exists file :: PlainName(file) && q.0 == "evidence" + "/" + input.artifact.name + "/" + file
  {
    var name := input.artifact.name;
    TreesAreNamed();
    if QualificationOk(input, q) {
      QualificationParts(input, q);
      JoinSplit(q.0, '/');
      ThreeJoined("evidence", name, Base(q.0));
      BaseIsPlainName(q.0);
      assert PlainName(Base(q.0)) && q.0 == "evidence" + "/" + name + "/" + Base(q.0);
    }
    if file :| PlainName(file) && q.0 == "evidence" + "/" + name + "/" + file {
      BaseOfPath("evidence", name, file);
      PartsAreSafe("evidence", name, file);
      SafeIsClean(q.0);
    }
  }

  lemma TreesAreNamed()
    ensures "evidence" in TREES && "artifacts" in TREES
  {
  }

  lemma ThreeJoined(a: string, b: string, c: string)
    ensures Join([a, b, c], "/") == a + "/" + b + "/" + c
  {
    JoinCons(a, [b, c], "/");
    JoinCons(b, [c], "/");
    assert [a] + [b, c] == [a, b, c] && [b] + [c] == [b, c];
  }

  lemma BaseIsPlainName(path: string)
    requires BundlePath(path)
    ensures PlainName(Base(path))
  {
    BaseOfSafe(path);
    BundlePathIff(path);
    PlainBase(path);
    PartsComeFrom(path);
  }

  lemma {:induction false} PartsComeFrom(path: string)
    ensures forall p <- Split(path, '/') :: forall c <- p :: c in path
    decreases |path|
  {
    var i := IndexOf(path, '/');
    if i < |path| {
      PartsComeFrom(path[i + 1..]);
    }
  }

  lemma EvidenceNames(path: string, name: string)
    requires Split(path, '/') == ["evidence", name + ".json"] && name != ""
    ensures FileArtifact(path, "evidence") == Some(name)
  {
    var file := name + ".json";
    assert file[|file| - 5..] == ".json" && file[..|file| - 5] == name;
  }

  // ----- the round trip, from sources to installed tree -----

  /** The importing controller: same versions, the key trusted, and a matching or absent binding. */
  predicate Matches(k: Controller, meta: Metadata, key: string, keyId: string, b: Maker) {
    && TrustedKey(keyId, b.publicKey(key)) in k.trusted
    && k.releaseVersion == meta.releaseVersion && k.siteApiVersion == meta.siteApiVersion &&
      k.schemaVersion == meta.schemaVersion
    && (|| meta.controllerSha256 == ""
        || (k.executable.Some? && EqualFold(k.executable.value.0, meta.controllerSha256) &&
            k.executable.value.1 == meta.controllerSize))
  }

  /** A built release is accepted exactly when its manifest is at most 1 MiB and no member is a directory of another. */
  lemma BuiltBundleImportsIff(r: Built, inputs: seq<Input>, meta: Metadata, key: string, keyId: string, deck: string,
                              panel: string, sources: Sources, b: Maker, k: Controller)
    requires BuiltFrom(r, inputs, meta, key, keyId, deck, panel, sources, b)
    requires ReadsBack(b, r.manifest, key, keyId)
    requires Matches(k, meta, key, keyId, b)
    ensures AcceptedArchive(r.archive, b.codec, k) <==>
            |b.encode(r.manifest)| <= MAX_MANIFEST && NoNesting(MemberPaths(r.members))
  {
    var m := r.manifest;
    assert ValidManifest(m) && FieldsOk(m);
    BuiltReleaseImportsIff(b, m, key, keyId, r.members, k);
  }

  lemma MemberSurvives(r: Built, inputs: seq<Input>, meta: Metadata, key: string, keyId: string, deck: string,
                       panel: string, sources: Sources, b: Maker, x: Member)
    requires BuiltFrom(r, inputs, meta, key, keyId, deck, panel, sources, b)
    requires ReadsBack(b, r.manifest, key, keyId)
    requires |b.encode(r.manifest)| <= MAX_MANIFEST && x in r.members
    ensures HeadMember(r.archive, 0, MANIFEST_NAME).Some? && HeadMember(r.archive, 1, SIGNATURE_NAME).Some?
    ensures x.path in Installed(r.archive) && Installed(r.archive)[x.path] == x.bytes
  {
    assert ValidManifest(r.manifest);
    BuiltReleaseKeepsBytes(b, r.manifest, key, keyId, r.members, x);
  }

  /** What import installs holds the source bytes of each input, and of the companions, at the declared paths. */
  lemma SourcesSurvive(r: Built, inputs: seq<Input>, meta: Metadata, key: string, keyId: string, deck: string,
                       panel: string, sources: Sources, b: Maker, input: Input)
    requires BuiltFrom(r, inputs, meta, key, keyId, deck, panel, sources, b)
    requires ReadsBack(b, r.manifest, key, keyId)
    requires |b.encode(r.manifest)| <= MAX_MANIFEST
    requires input in inputs && DistinctKeys(input.qualification)
    ensures HeadMember(r.archive, 0, MANIFEST_NAME).Some? && HeadMember(r.archive, 1, SIGNATURE_NAME).Some?
    ensures var tree := Installed(r.archive);
            && input.artifactSource in sources && ArtifactPath(input) in tree &&
              tree[ArtifactPath(input)] == sources[input.artifactSource]
            && (forall q <- input.qualification :: q.1 in sources && q.0 in tree && tree[q.0] == sources[q.1])
            && (input.evidenceSource != "" ==>
                  && input.evidenceSource in sources && EvidencePath(input.artifact.name) in tree
                  && b.evidence(sources[input.evidenceSource], input.artifact, ArtifactPath(input)) ==
                    Some(tree[EvidencePath(input.artifact.name)]))
            && (deck != "" ==> deck in sources && STREAMDECK_PATH in tree && tree[STREAMDECK_PATH] == sources[deck])
            && (panel != "" ==> panel in sources && STATUS_PATH in tree && tree[STATUS_PATH] == sources[panel])
  {
    if deck != "" {
      MemberSurvives(r, inputs, meta, key, keyId, deck, panel, sources, b,
                     Member(STREAMDECK_PATH, sources[deck], STREAMDECK_KIND, ""));
    }
    if panel != "" {
      MemberSurvives(r, inputs, meta, key, keyId, deck, panel, sources, b,
                     Member(STATUS_PATH, sources[panel], STATUS_KIND, ""));
    }
    assert Provided(r.members, input, sources, b);
    var x :| x in r.members && IsArtifact(x, input, sources);
    MemberSurvives(r, inputs, meta, key, keyId, deck, panel, sources, b, x);
    if input.evidenceSource != "" {
      var e :| e in r.members && IsEvidence(e, input, sources, b);
      MemberSurvives(r, inputs, meta, key, keyId, deck, panel, sources, b, e);
    }
    forall q <- input.qualification
      ensures q.1 in sources && q.0 in Installed(r.archive) && Installed(r.archive)[q.0] == sources[q.1] {
      QualificationBytes(r, inputs, sources, b, input, q);
      var y :| y in r.members && IsQualification(y, input, q, sources);
      MemberSurvives(r, inputs, meta, key, keyId, deck, panel, sources, b, y);
    }
  }
}
