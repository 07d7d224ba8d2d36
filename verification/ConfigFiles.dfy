/**
  Loading the configuration: the manifest hash and the approval test, and the duplicate removal of
  load_manifests (bbpipeline/manifest.py) and load_platform_sources (bbpipeline/platform_sources.py).
*/
module ConfigFiles {
  import opened Common
  import opened ApprovalGate

  // ---------------------------------------------------------------- the manifest hash

  /** A manifest as YAML: top-level keys and the canonical JSON text of their values. */
  type RawManifest = map<string, string>

  /** The SHA-256 digest of canonical JSON, taken to be injective. */
  type Digest = RawManifest -> string

  ghost predicate Injective(digest: Digest) {
    forall a, b :: digest(a) == digest(b) ==> a == b
  }

  function CanonicalData(raw: RawManifest): RawManifest {
    raw - {"approval"}
  }

  function ManifestHash(digest: Digest, raw: RawManifest): string {
    "sha256:" + digest(CanonicalData(raw))
  }

  ghost predicate SameButApproval(a: RawManifest, b: RawManifest) {
    forall k | k != "approval" :: (k in a <==> k in b) && (k in a && k in b ==> a[k] == b[k])
  }

  /** Two manifests have one hash exactly when they agree on everything but their approval blocks. */
  lemma HashPinsEverythingButApproval(digest: Digest, a: RawManifest, b: RawManifest)
    requires Injective(digest)
    ensures ManifestHash(digest, a) == ManifestHash(digest, b) <==> SameButApproval(a, b)
  {
    assert ManifestHash(digest, a)[7..] == digest(CanonicalData(a));
    assert ManifestHash(digest, b)[7..] == digest(CanonicalData(b));
    var x, y := CanonicalData(a), CanonicalData(b);
    assert forall k :: k in x <==> k in a && k != "approval";
    assert forall k :: k in y <==> k in b && k != "approval";
    assert (forall k <- x :: x[k] == a[k]) && (forall k <- y :: y[k] == b[k]);
    if SameButApproval(a, b) {
      assert x == y;
    }
  }

  /** No digest is ever equal to a hash that lacks the tag, such as the word written on an unreviewed candidate. */
  lemma UntaggedHashNeverApproves(digest: Digest, raw: RawManifest, approvedHash: string)
    requires !("sha256:" <= approvedHash)
    ensures approvedHash != ManifestHash(digest, raw)
  {
    assert "sha256:" <= ManifestHash(digest, raw);
  }

  // ---------------------------------------------------------------- load_manifests

  datatype ManifestFile =
    | Readable(entry: LoadedManifest)
    | Broken(declaredId: Option<string>, error: string)

  function CountId(entries: seq<LoadedManifest>, id: string): nat {
    if entries == [] then 0
    else CountId(entries[..|entries| - 1], id) + if entries[|entries| - 1].manifest.programId == id then 1 else 0
  }

  function Readables(files: seq<ManifestFile>): seq<LoadedManifest> {
    if files == [] then []
    else
      var last := files[|files| - 1];
      Readables(files[..|files| - 1]) + if last.Readable? then [last.entry] else []
  }

  predicate Reported(invalid: seq<InvalidManifest>, id: string) {
    exists k | 0 <= k < |invalid| :: invalid[k].programId == Some(id)
  }

  /** The only one of the entries that declares its program. */
  ghost predicate Alone(entries: seq<LoadedManifest>, e: LoadedManifest) {
    exists i | 0 <= i < |entries| ::
      && entries[i] == e
      && forall k | 0 <= k < |entries| && k != i :: entries[k].manifest.programId != e.manifest.programId
  }

  function Declaring(entries: seq<LoadedManifest>, id: string): set<nat> {
    set k: nat | k < |entries| && entries[k].manifest.programId == id
  }

  lemma {:induction false} CountIdMeaning(entries: seq<LoadedManifest>, id: string)
    ensures CountId(entries, id) == |Declaring(entries, id)|
  {
    if entries == [] {
      assert Declaring(entries, id) == {};
    } else {
      var n := |entries| - 1;
      CountIdMeaning(entries[..n], id);
      assert Declaring(entries, id) ==
        Declaring(entries[..n], id) + if entries[n].manifest.programId == id then {n} else {};
      assert n !in Declaring(entries[..n], id);
    }
  }

  lemma CountedOnceMeansAlone(entries: seq<LoadedManifest>, e: LoadedManifest)
    requires e in entries
    ensures CountId(entries, e.manifest.programId) == 1 <==> Alone(entries, e)
  {
    var id := e.manifest.programId;
    CountIdMeaning(entries, id);
    var places := Declaring(entries, id);
    var i :| 0 <= i < |entries| && entries[i] == e;
    assert i in places;
    if |places| == 1 {
      OnlyMember(places, i);
      forall k | 0 <= k < |entries| && k != i ensures entries[k].manifest.programId != id {
        assert k !in places;
      }
    }
    if Alone(entries, e) {
      var j :| 0 <= j < |entries| && entries[j] == e
        && forall k | 0 <= k < |entries| && k != j :: entries[k].manifest.programId != id;
      assert places == {j} && |{j}| == 1;
    }
  }

  lemma OnlyMember(s: set<nat>, i: nat)
    requires |s| == 1 && i in s
    ensures s == {i}
  {
    assert |s - {i}| == 0;
    assert s == s - {i} + {i};
  }

  lemma {:induction false} ReadablesMeaning(files: seq<ManifestFile>, e: LoadedManifest)
    ensures e in Readables(files) <==> Readable(e) in files
  {
    if files != [] {
      ReadablesMeaning(files[..|files| - 1], e);
      assert forall f :: f in files <==> f in files[..|files| - 1] || f == files[|files| - 1];
    }
  }

  /**
    Every file is either kept or reported, and an id survives exactly when one readable file declares
    it. A broken file is reported with the id it declares, a dropped one with its own.
  */
  method LoadManifests(files: seq<ManifestFile>) returns (loaded: seq<LoadedManifest>, invalid: seq<InvalidManifest>)
    ensures UniqueIds(loaded)
    ensures |loaded| + |invalid| == |files|
    ensures forall e :: e in loaded <==> Readable(e) in files && Alone(Readables(files), e)
    ensures forall f <- files | f.Readable? && f.entry !in loaded :: Reported(invalid, f.entry.manifest.programId)
    ensures forall f <- files | f.Broken? :: InvalidManifest(f.declaredId, f.error) in invalid
  {
    var read: seq<LoadedManifest> := [];
    invalid := [];
    for i := 0 to |files|
      invariant read == Readables(files[..i])
      invariant forall k | 0 <= k < i && files[k].Broken? ::
        InvalidManifest(files[k].declaredId, files[k].error) in invalid
      invariant |read| + |invalid| == i
    {
      assert files[..i + 1][..i] == files[..i];
      match files[i] {
        case Readable(e) => read := read + [e];
        case Broken(id, error) => invalid := invalid + [InvalidManifest(id, error)];
      }
    }
    assert files[..|files|] == files;
    var ambiguous: seq<InvalidManifest>;
    loaded, ambiguous := DropDuplicates(read);
    forall e | e in read && e !in loaded ensures Reported(invalid + ambiguous, e.manifest.programId) {
      var k :| 0 <= k < |ambiguous| && ambiguous[k].programId == Some(e.manifest.programId);
      assert (invalid + ambiguous)[|invalid| + k] == ambiguous[k];
    }
    invalid := invalid + ambiguous;
    forall e ensures e in read <==> Readable(e) in files
      ensures e in read ==> (CountId(read, e.manifest.programId) == 1 <==> Alone(read, e))
    {
      ReadablesMeaning(files, e);
      if e in read {
        CountedOnceMeansAlone(read, e);
      }
    }
    forall f | f in files && f.Readable? && f.entry !in loaded ensures Reported(invalid, f.entry.manifest.programId) {
      assert f == Readable(f.entry);
    }
  }

  method DropDuplicates(read: seq<LoadedManifest>) returns (kept: seq<LoadedManifest>, ambiguous: seq<InvalidManifest>)
    ensures UniqueIds(kept)
    ensures |kept| + |ambiguous| == |read|
    ensures forall e :: e in kept <==> e in read && CountId(read, e.manifest.programId) == 1
    ensures forall e <- read | e !in kept :: Reported(ambiguous, e.manifest.programId)
  {
    kept, ambiguous := [], [];
    for i := 0 to |read|
      invariant |kept| + |ambiguous| == i
      invariant UniqueIds(kept)
      invariant forall e :: e in kept <==> e in read[..i] && CountId(read, e.manifest.programId) == 1
      invariant forall k | 0 <= k < i && CountId(read, read[k].manifest.programId) != 1 ::
        Reported(ambiguous, read[k].manifest.programId)
    {
      var e := read[i];
      var id := e.manifest.programId;
      assert read[..i + 1] == read[..i] + [e];
      EarlierDeclares(read, i);
      if CountId(read, id) > 1 {
        var broken := InvalidManifest(Some(id), "program_id is declared by more than one manifest");
        assert (ambiguous + [broken])[|ambiguous|] == broken && (ambiguous + [broken])[..|ambiguous|] == ambiguous;
        ambiguous := ambiguous + [broken];
      } else {
        kept := kept + [e];
      }
    }
    assert read[..|read|] == read;
  }

  lemma EarlierDeclares(read: seq<LoadedManifest>, i: nat)
    requires i < |read|
    ensures CountId(read, read[i].manifest.programId) >= 1
    ensures forall e <- read[..i] ::
      e.manifest.programId == read[i].manifest.programId ==> CountId(read, e.manifest.programId) >= 2
  {
    DeclaredBefore(read, i, i);
    forall k | 0 <= k < i && read[k].manifest.programId == read[i].manifest.programId
      ensures CountId(read, read[k].manifest.programId) >= 2
    {
      DeclaredBefore(read, k, i);
    }
  }

  lemma {:induction false} DeclaredBefore(read: seq<LoadedManifest>, k: nat, i: nat)
    requires k <= i < |read|
    ensures CountId(read, read[i].manifest.programId) >= 1
    ensures k < i && read[k].manifest.programId == read[i].manifest.programId ==>
      CountId(read, read[i].manifest.programId) >= 2
    decreases |read|
  {
    if i < |read| - 1 {
      DeclaredBefore(read[..|read| - 1], k, i);
    } else if k < i {
      DeclaredBefore(read[..|read| - 1], k, k);
    }
  }

  // ---------------------------------------------------------------- load_platform_sources

  function CountSource(configs: seq<SourceConfig>, id: string): nat {
    if configs == [] then 0
    else CountSource(configs[..|configs| - 1], id) + if configs[|configs| - 1].sourceId == id then 1 else 0
  }

  function CountProgram(configs: seq<SourceConfig>, id: string): nat {
    if configs == [] then 0
    else CountProgram(configs[..|configs| - 1], id) + if configs[|configs| - 1].programId == id then 1 else 0
  }

  ghost predicate UniqueSources(configs: seq<SourceConfig>) {
    forall i, j | 0 <= i < j < |configs| ::
      configs[i].sourceId != configs[j].sourceId && configs[i].programId != configs[j].programId
  }

  function Increment(counts: map<string, nat>, id: string): map<string, nat> {
    counts[id := (if id in counts then counts[id] else 0) + 1]
  }

  /** No other configuration claims the source or the program of this one. */
  ghost predicate Unrivalled(configs: seq<SourceConfig>, c: SourceConfig) {
    exists i | 0 <= i < |configs| ::
      && configs[i] == c
      && forall k | 0 <= k < |configs| && k != i ::
           configs[k].sourceId != c.sourceId && configs[k].programId != c.programId
  }

  function ClaimingSource(configs: seq<SourceConfig>, id: string): set<nat> {
    set k: nat | k < |configs| && configs[k].sourceId == id
  }

  function ClaimingProgram(configs: seq<SourceConfig>, id: string): set<nat> {
    set k: nat | k < |configs| && configs[k].programId == id
  }

  lemma {:induction false} CountSourceMeaning(configs: seq<SourceConfig>, id: string)
    ensures CountSource(configs, id) == |ClaimingSource(configs, id)|
  {
    if configs == [] {
      assert ClaimingSource(configs, id) == {};
    } else {
      var n := |configs| - 1;
      CountSourceMeaning(configs[..n], id);
      assert ClaimingSource(configs, id) ==
        ClaimingSource(configs[..n], id) + if configs[n].sourceId == id then {n} else {};
      assert n !in ClaimingSource(configs[..n], id);
    }
  }

  lemma {:induction false} CountProgramMeaning(configs: seq<SourceConfig>, id: string)
    ensures CountProgram(configs, id) == |ClaimingProgram(configs, id)|
  {
    if configs == [] {
      assert ClaimingProgram(configs, id) == {};
    } else {
      var n := |configs| - 1;
      CountProgramMeaning(configs[..n], id);
      assert ClaimingProgram(configs, id) ==
        ClaimingProgram(configs[..n], id) + if configs[n].programId == id then {n} else {};
      assert n !in ClaimingProgram(configs[..n], id);
    }
  }

  lemma ClaimedOnceMeansUnrivalled(configs: seq<SourceConfig>, c: SourceConfig)
    requires c in configs
    ensures CountSource(configs, c.sourceId) == 1 && CountProgram(configs, c.programId) == 1 <==> Unrivalled(configs, c)
  {
    CountSourceMeaning(configs, c.sourceId);
    CountProgramMeaning(configs, c.programId);
    var bySource, byProgram := ClaimingSource(configs, c.sourceId), ClaimingProgram(configs, c.programId);
    var i :| 0 <= i < |configs| && configs[i] == c;
    assert i in bySource && i in byProgram;
    if |bySource| == 1 && |byProgram| == 1 {
      OnlyMember(bySource, i);
      OnlyMember(byProgram, i);
      forall k | 0 <= k < |configs| && k != i
        ensures configs[k].sourceId != c.sourceId && configs[k].programId != c.programId
      {
        assert k !in bySource && k !in byProgram;
      }
    }
    if Unrivalled(configs, c) {
      var j :| 0 <= j < |configs| && configs[j] == c
        && forall k | 0 <= k < |configs| && k != j ::
             configs[k].sourceId != c.sourceId && configs[k].programId != c.programId;
      assert bySource == {j} && byProgram == {j} && |{j}| == 1;
    }
  }

  /** A source is kept exactly when no other file claims its source id or its program. */
  method DropAmbiguousSources(parsed: seq<SourceConfig>) returns (loaded: seq<SourceConfig>, dropped: nat)
    ensures UniqueSources(loaded)
    ensures |loaded| + dropped == |parsed|
    ensures forall c :: c in loaded <==> c in parsed && Unrivalled(parsed, c)
  {
    var counts: map<string, nat> := map[];
    var programCounts: map<string, nat> := map[];
    for i := 0 to |parsed|
      invariant forall id :: CountSource(parsed[..i], id) == if id in counts then counts[id] else 0
      invariant forall id :: CountProgram(parsed[..i], id) == if id in programCounts then programCounts[id] else 0
    {
      assert parsed[..i + 1][..i] == parsed[..i];
      counts := Increment(counts, parsed[i].sourceId);
      programCounts := Increment(programCounts, parsed[i].programId);
    }
    assert parsed[..|parsed|] == parsed;
    loaded, dropped := [], 0;
    for i := 0 to |parsed|
      invariant |loaded| + dropped == i
      invariant forall c :: c in loaded <==>
        c in parsed[..i] && CountSource(parsed, c.sourceId) == 1 && CountProgram(parsed, c.programId) == 1
      invariant UniqueSources(loaded)
    {
      var c := parsed[i];
      assert parsed[..i + 1] == parsed[..i] + [c];
      EarlierIsCounted(parsed, i);
      if counts[c.sourceId] > 1 || programCounts[c.programId] > 1 {
        dropped := dropped + 1;
      } else {
        loaded := loaded + [c];
      }
    }
    assert parsed[..|parsed|] == parsed;
    forall c | c in parsed
      ensures CountSource(parsed, c.sourceId) == 1 && CountProgram(parsed, c.programId) == 1 <==> Unrivalled(parsed, c)
    {
      ClaimedOnceMeansUnrivalled(parsed, c);
    }
  }

  lemma EarlierIsCounted(parsed: seq<SourceConfig>, i: nat)
    requires i < |parsed|
    ensures CountSource(parsed, parsed[i].sourceId) >= 1 && CountProgram(parsed, parsed[i].programId) >= 1
    ensures forall c <- parsed[..i] ::
      && (c.sourceId == parsed[i].sourceId ==> CountSource(parsed, c.sourceId) >= 2)
      && (c.programId == parsed[i].programId ==> CountProgram(parsed, c.programId) >= 2)
  {
    CountsOf(parsed, i, i);
    forall k | 0 <= k < i
      ensures parsed[k].sourceId == parsed[i].sourceId ==> CountSource(parsed, parsed[k].sourceId) >= 2
      ensures parsed[k].programId == parsed[i].programId ==> CountProgram(parsed, parsed[k].programId) >= 2
    {
      CountsOf(parsed, k, i);
    }
  }

  lemma {:induction false} CountsOf(parsed: seq<SourceConfig>, k: nat, i: nat)
    requires k <= i < |parsed|
    ensures CountSource(parsed, parsed[i].sourceId) >= 1 && CountProgram(parsed, parsed[i].programId) >= 1
    ensures k < i && parsed[k].sourceId == parsed[i].sourceId ==> CountSource(parsed, parsed[i].sourceId) >= 2
    ensures k < i && parsed[k].programId == parsed[i].programId ==> CountProgram(parsed, parsed[i].programId) >= 2
    decreases |parsed|
  {
    if i < |parsed| - 1 {
      CountsOf(parsed[..|parsed| - 1], k, i);
    } else if k < i {
      CountsOf(parsed[..|parsed| - 1], k, k);
    }
  }
}
