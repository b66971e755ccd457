/** What a build is made of, in terms of the scan: the order of its entries, which of several
    entries at one path stays, which probe an id comes from, and when two probes ask for the same. */
module BuildOrder {
  import opened Domain
  import opened Sorting
  import opened Builder
  import opened BuildTheorem
  import Paths
  import Text

  // ---- The keys of the probes ----

  lemma DigitsOf(n: nat, c: char)
    requires c in Text.Decimal(n)
    ensures '0' <= c <= '9'
  {}

  lemma BarTooEarly(a: string, x: string, b: string, y: string)
    requires |a| < |b| && '|' !in b
    ensures a + "|" + x != b + "|" + y
  {
    assert (a + "|" + x)[|a|] == '|' && (b + "|" + y)[|a|] == b[|a|] && b[|a|] in b;
  }

  /** Texts that are equal up to their first bar and behind it. */
  lemma SplitAtBar(a: string, x: string, b: string, y: string)
    requires '|' !in a && '|' !in b && a + "|" + x == b + "|" + y
    ensures a == b && x == y
  {
    if |a| < |b| {
      BarTooEarly(a, x, b, y);
    } else if |b| < |a| {
      BarTooEarly(b, y, a, x);
    } else {
      var s, t := a + "|" + x, b + "|" + y;
      assert s[..|a|] == a && t[..|b|] == b && s[|a| + 1..] == x && t[|b| + 1..] == y;
    }
  }

  lemma DecimalHasNoBar(n: nat)
    ensures '|' !in Text.Decimal(n)
  {
    if '|' in Text.Decimal(n) { DigitsOf(n, '|'); }
  }

  lemma KeyParts(raw: RawEntry, path: string) returns (rest: string)
    ensures BaseKey(raw, path) == Text.Decimal(raw.kind) + "|" + rest
    ensures raw.metadata.deviceId == 0 || raw.metadata.fileId == 0 ==> rest == path
    ensures raw.metadata.deviceId != 0 && raw.metadata.fileId != 0 ==>
      rest == Text.Decimal(raw.metadata.deviceId) + "|" + Text.Decimal(raw.metadata.fileId)
  {
    rest := if raw.metadata.deviceId != 0 && raw.metadata.fileId != 0
      then Text.Decimal(raw.metadata.deviceId) + "|" + Text.Decimal(raw.metadata.fileId)
      else path;
  }

  lemma InodeTextIff(d1: nat, f1: nat, d2: nat, f2: nat)
    ensures Text.Decimal(d1) + "|" + Text.Decimal(f1) == Text.Decimal(d2) + "|" + Text.Decimal(f2) <==> d1 == d2 && f1 == f2
  {
    hide Text.Decimal;
    if Text.Decimal(d1) + "|" + Text.Decimal(f1) == Text.Decimal(d2) + "|" + Text.Decimal(f2) {
      DecimalHasNoBar(d1);
      DecimalHasNoBar(d2);
      SplitAtBar(Text.Decimal(d1), Text.Decimal(f1), Text.Decimal(d2), Text.Decimal(f2));
      Text.DecimalInjective(d1, d2);
      Text.DecimalInjective(f1, f2);
    }
  }

  lemma StartsWithDigit(d: nat, rest: string)
    ensures (Text.Decimal(d) + rest)[0] != '/'
  {
    assert (Text.Decimal(d) + rest)[0] == Text.Decimal(d)[0];
  }

  lemma WithoutInode(m: FileMetadata)
    ensures !(m.deviceId != 0 && m.fileId != 0) <==> m.deviceId == 0 || m.fileId == 0
  {}

  /** Main result: at absolute paths, two entries first ask for the same key exactly when they have one type
      and are one inode, or have no known inode and one path. */
  lemma SameKeyIff(x: RawEntry, p: string, y: RawEntry, q: string)
    requires p != "" && p[0] == '/' && q != "" && q[0] == '/'
    ensures BaseKey(x, p) == BaseKey(y, q) <==>
      && x.kind == y.kind
      && (if x.metadata.deviceId != 0 && x.metadata.fileId != 0
          then y.metadata.deviceId == x.metadata.deviceId && y.metadata.fileId == x.metadata.fileId
          else (y.metadata.deviceId == 0 || y.metadata.fileId == 0) && p == q)
  {
    hide BaseKey, Text.Decimal;
    var r := KeyParts(x, p);
    var s := KeyParts(y, q);
    var m, n := x.metadata, y.metadata;
    KeyHeads(x.kind, r, y.kind, s);
    InodeTextIff(m.deviceId, m.fileId, n.deviceId, n.fileId);
    StartsWithDigit(m.deviceId, "|" + Text.Decimal(m.fileId));
    StartsWithDigit(n.deviceId, "|" + Text.Decimal(n.fileId));
    assert Text.Decimal(m.deviceId) + "|" + Text.Decimal(m.fileId) == Text.Decimal(m.deviceId) + ("|" + Text.Decimal(m.fileId));
    assert Text.Decimal(n.deviceId) + "|" + Text.Decimal(n.fileId) == Text.Decimal(n.deviceId) + ("|" + Text.Decimal(n.fileId));
  }

  lemma KeyHeads(j: nat, r: string, k: nat, s: string)
    ensures Text.Decimal(j) + "|" + r == Text.Decimal(k) + "|" + s <==> j == k && r == s
  {
    hide Text.Decimal;
    if Text.Decimal(j) + "|" + r == Text.Decimal(k) + "|" + s {
      DecimalHasNoBar(j);
      DecimalHasNoBar(k);
      SplitAtBar(Text.Decimal(j), r, Text.Decimal(k), s);
      Text.DecimalInjective(j, k);
    }
  }

  lemma EqualsTooEarly(a: string, x: string, b: string, y: string)
    requires |a| < |b| && '=' !in x
    ensures a + "=" + x != b + "=" + y
  {
    var s, t, k := a + "=" + x, b + "=" + y, |b| - |a| - 1;
    if |s| == |t| { assert t[|b|] == '=' && s[|b|] == x[k] && x[k] in x; }
  }

  /** Texts that are equal up to their last equals sign and behind it. */
  lemma SplitAtLastEquals(a: string, x: string, b: string, y: string)
    requires '=' !in x && '=' !in y && a + "=" + x == b + "=" + y
    ensures a == b && x == y
  {
    if |a| < |b| {
      EqualsTooEarly(a, x, b, y);
    } else if |b| < |a| {
      EqualsTooEarly(b, y, a, x);
    } else {
      var s, t := a + "=" + x, b + "=" + y;
      assert s[..|a|] == a && t[..|b|] == b && s[|a| + 1..] == x && t[|b| + 1..] == y;
    }
  }

  /** Once salted, entries with one base key ask for the same key exactly at one path with one salt;
      so hard links part after the first probe. */
  lemma SaltedKeyIff(x: RawEntry, p: string, j: nat, y: RawEntry, q: string, k: nat)
    requires BaseKey(x, p) == BaseKey(y, q)
    requires 0 < j < 0x1_0000_0000 && 0 < k < 0x1_0000_0000
    ensures CandidateKey(x, p, j) == CandidateKey(y, q, k) <==> p == q && j == k
  {
    hide BaseKey, Text.Decimal;
    var base := BaseKey(x, p);
    var a, b := base + "|path=" + p + "|salt", base + "|path=" + q + "|salt";
    assert "|salt=" == "|salt" + "=";
    assert CandidateKey(x, p, j) == a + "=" + Text.Decimal(j);
    assert CandidateKey(y, q, k) == b + "=" + Text.Decimal(k);
    if CandidateKey(x, p, j) == CandidateKey(y, q, k) {
      NoEquals(j);
      NoEquals(k);
      SplitAtLastEquals(a, Text.Decimal(j), b, Text.Decimal(k));
      Text.DecimalInjective(j, k);
      var front := base + "|path=";
      assert |p| == |q|;
      assert a[|front|..|front| + |p|] == p && b[|front|..|front| + |q|] == q;
    }
  }

  lemma NoEquals(n: nat)
    ensures '=' !in Text.Decimal(n)
  {
    if '=' in Text.Decimal(n) { DigitsOf(n, '='); }
  }

  /** A probe asks for the hash of its key, with 1 in place of 0; the first key has no salt. */
  lemma CandidateIs(hash: Hash, raw: RawEntry, path: string, k: nat)
    ensures hash(CandidateKey(raw, path, k)) != 0 ==> CandidateId(hash, raw, path, k) == hash(CandidateKey(raw, path, k))
    ensures hash(CandidateKey(raw, path, k)) == 0 ==> CandidateId(hash, raw, path, k) == 1
    ensures CandidateKey(raw, path, 0) == BaseKey(raw, path)
  {
    hide BaseKey, SaltedKey;
  }

  // ---- Where the entries come from ----

  /** The places in the sorted scan of the entries that stay. */
  ghost function Sources(hash: Hash, raws: seq<RawEntry>): seq<nat> {
    if raws == [] then []
    else
      var n := |raws| - 1;
      Sources(hash, raws[..n])
      + if Paths.Normalize(raws[n].path) in PathsOf(Gather(hash, raws[..n]).entries) then [] else [n]
  }

  /** The entry's id is the first of its candidates that no entry before it has. */
  ghost predicate FirstFreeId(hash: Hash, raw: RawEntry, es: seq<FileEntry>, i: nat)
    requires i < |es|
  {
    exists k: nat :: IsFirstFresh(hash, raw, es[i].path, Ids(es[..i]), k) && es[i].id == CandidateId(hash, raw, es[i].path, k)
  }

  /** The entry at place `i` was made of the raw entry at place `k`, the first at its path. */
  ghost predicate MadeOf(hash: Hash, raws: seq<RawEntry>, es: seq<FileEntry>, i: nat, k: nat)
    requires i < |es|
  {
    && k < |raws| && es[i].(parentId := 0) == MakeEntry(raws[k], es[i].id)
    && (forall l: nat :: l < k ==> Paths.Normalize(raws[l].path) != es[i].path)
    && FirstFreeId(hash, raws[k], es, i)
  }

  ghost predicate SourcesOk(hash: Hash, raws: seq<RawEntry>, es: seq<FileEntry>, places: seq<nat>) {
    && |places| == |es|
    && (forall i {:trigger places[i]} :: 0 <= i < |es| ==> MadeOf(hash, raws, es, i, places[i]))
    && (forall i, j :: 0 <= i < j < |places| ==> places[i] < places[j])
  }

  lemma MadeOfMore(hash: Hash, raws: seq<RawEntry>, raw: RawEntry, es: seq<FileEntry>, more: seq<FileEntry>, i: nat, k: nat)
    requires i < |es| && MadeOf(hash, raws, es, i, k)
    ensures MadeOf(hash, raws + [raw], es + more, i, k)
  {
    hide MakeEntry, Paths.Normalize, CandidateId, Ids, IsFirstFresh;
    assert (es + more)[..i] == es[..i];
  }

  lemma {:induction false} GatherSources(hash: Hash, raws: seq<RawEntry>)
    requires ProbesEnd(hash, raws)
    ensures SourcesOk(hash, raws, Gather(hash, raws).entries, Sources(hash, raws))
  {
    hide MakeEntry, Paths.Normalize, MadeOf, PathsOf, ProbesEnd, GatherOk, ProbeEnds, SourcesOk, Gather, Sources;
    if raws == [] {
      NoSources(hash);
    } else {
      var n := |raws| - 1;
      ProbesEndBefore(hash, raws, n);
      GatherSources(hash, raws[..n]);
      assert raws == raws[..n] + [raws[n]];
      var es, places := Gather(hash, raws[..n]).entries, Sources(hash, raws[..n]);
      SourcesStep(hash, raws, n);
      if Paths.Normalize(raws[n].path) in PathsOf(es) {
        SourcesMore(hash, raws[..n], raws[n], es, places, [], []);
        assert es + [] == es && places + [] == places;
      } else {
        NewestMade(hash, raws, n);
        var all := Gather(hash, raws).entries;
        assert all == es + all[|es|..];
        SourcesMore(hash, raws[..n], raws[n], es, places, all[|es|..], [n]);
      }
    }
  }

  lemma NoSources(hash: Hash)
    ensures SourcesOk(hash, [], Gather(hash, []).entries, Sources(hash, []))
  {}

  lemma SourcesStep(hash: Hash, raws: seq<RawEntry>, n: nat)
    requires n + 1 == |raws|
    ensures var es := Gather(hash, raws[..n]).entries;
      if Paths.Normalize(raws[n].path) in PathsOf(es) then
        Gather(hash, raws).entries == es && Sources(hash, raws) == Sources(hash, raws[..n])
      else
        && |Gather(hash, raws).entries| == |es| + 1 && Gather(hash, raws).entries[..|es|] == es
        && Sources(hash, raws) == Sources(hash, raws[..n]) + [n]
  {
    hide Paths.Normalize, PathsOf, MakeEntry, Probes, CandidateId, CandidateKey;
  }

  lemma SourcesMore(hash: Hash, raws: seq<RawEntry>, raw: RawEntry, es: seq<FileEntry>, places: seq<nat>,
                    more: seq<FileEntry>, place: seq<nat>)
    requires SourcesOk(hash, raws, es, places)
    requires (more == [] && place == [])
      || (|more| == 1 && place == [|raws|] && MadeOf(hash, raws + [raw], es + more, |es|, |raws|))
    ensures SourcesOk(hash, raws + [raw], es + more, places + place)
  {
    hide MadeOf;
    PlacesBelow(hash, raws, es, places);
    forall i | 0 <= i < |es + more| ensures MadeOf(hash, raws + [raw], es + more, i, (places + place)[i]) {
      if i < |es| { MadeOfMore(hash, raws, raw, es, more, i, places[i]); }
    }
  }

  lemma PlacesBelow(hash: Hash, raws: seq<RawEntry>, es: seq<FileEntry>, places: seq<nat>)
    requires SourcesOk(hash, raws, es, places)
    ensures forall i :: 0 <= i < |places| ==> places[i] < |raws|
  {
    hide MakeEntry, Paths.Normalize, FirstFreeId;
  }

  lemma NewestMade(hash: Hash, raws: seq<RawEntry>, n: nat)
    requires n < |raws| && raws == raws[..n] + [raws[n]] && ProbesEnd(hash, raws)
    requires Paths.Normalize(raws[n].path) !in PathsOf(Gather(hash, raws[..n]).entries)
    ensures var es := Gather(hash, raws).entries;
      |es| == |Gather(hash, raws[..n]).entries| + 1 && MadeOf(hash, raws, es, |es| - 1, n)
  {
    hide Paths.Normalize, PathsOf, ProbesEnd, Ids, IsFirstFresh, MakeEntry, MadeOf, GatherOk, Probes, CandidateId, CandidateKey;
    ProbesEndBefore(hash, raws, n);
    GatherIsOk(hash, raws[..n]);
    ProbesEndAt(hash, raws, n);
    var g, raw := Gather(hash, raws[..n]), raws[n];
    GatheredPaths(raws[..n], g);
    var path := Paths.Normalize(raw.path);
    var w: nat :| CandidateId(hash, raw, path, w) !in g.usedIds.Keys;
    var k := FirstFreshBelow(hash, raw, path, g.usedIds.Keys, w);
    NewestAt(hash, raws, g, n, k);
  }

  lemma GatheredPaths(raws: seq<RawEntry>, g: Gathered)
    requires GatherOk(raws, g)
    ensures g.usedIds.Keys == Ids(g.entries)
    ensures forall raw :: raw in raws ==> Paths.Normalize(raw.path) in PathsOf(g.entries)
  {}

  lemma NewestAt(hash: Hash, raws: seq<RawEntry>, g: Gathered, n: nat, k: nat)
    requires n < |raws| && raws == raws[..n] + [raws[n]]
    requires g.usedIds.Keys == Ids(g.entries) && Paths.Normalize(raws[n].path) !in PathsOf(g.entries)
    requires forall raw :: raw in raws[..n] ==> Paths.Normalize(raw.path) in PathsOf(g.entries)
    requires IsFirstFresh(hash, raws[n], Paths.Normalize(raws[n].path), g.usedIds.Keys, k)
    ensures var es := g.entries + [MakeEntry(raws[n], CandidateId(hash, raws[n], Paths.Normalize(raws[n].path), k))];
      MadeOf(hash, raws, es, |g.entries|, n)
  {
    hide Paths.Normalize, Paths.Filename, PathsOf, Ids, IsFirstFresh, CandidateId;
    var raw, path, i := raws[n], Paths.Normalize(raws[n].path), |g.entries|;
    var es := g.entries + [MakeEntry(raw, CandidateId(hash, raw, path, k))];
    assert es[..i] == g.entries;
    assert IsFirstFresh(hash, raw, path, Ids(es[..i]), k);
    forall l: nat | l < n ensures Paths.Normalize(raws[l].path) != path { assert raws[..n][l] in raws[..n]; }
  }

  // ---- The whole build ----

  /** The entry at place `i` is `raw`, which comes first of all that was scanned at its path. */
  ghost predicate BuiltOf(hash: Hash, scanned: seq<RawEntry>, es: seq<FileEntry>, i: nat, raw: RawEntry)
    requires i < |es|
  {
    && raw in scanned && es[i].path == Paths.Normalize(raw.path)
    && es[i].kind == raw.kind && es[i].metadata == raw.metadata
    && es[i].name == (if raw.name == "" then Paths.Filename(es[i].path) else raw.name)
    && (forall other :: other in scanned && Paths.Normalize(other.path) == es[i].path ==> !StringLess(other.path, raw.path))
    && FirstFreeId(hash, raw, es, i)
  }

  lemma BuiltOfMade(hash: Hash, scanned: seq<RawEntry>, raws: seq<RawEntry>, es: seq<FileEntry>, fs: seq<FileEntry>, i: nat, k: nat)
    requires SortedBy(ByRawPath, raws) && Permutation(raws, scanned) && SamePlaces(es, fs)
    requires i < |es| && MadeOf(hash, raws, es, i, k)
    ensures BuiltOf(hash, scanned, fs, i, raws[k])
  {
    hide Paths.Normalize, Paths.Filename, Permutation, CandidateId, IsFirstFresh, SortedBy;
    PermutationMembers(raws, scanned);
    SameIds(es, fs, i);
    assert FirstFreeId(hash, raws[k], fs, i) by {
      var c: nat :| IsFirstFresh(hash, raws[k], es[i].path, Ids(es[..i]), c) && es[i].id == CandidateId(hash, raws[k], es[i].path, c);
      assert IsFirstFresh(hash, raws[k], fs[i].path, Ids(fs[..i]), c);
    }
    forall other | other in scanned && Paths.Normalize(other.path) == es[i].path ensures !StringLess(other.path, raws[k].path) {
      var l :| 0 <= l < |raws| && raws[l] == other;
      NotBefore(raws, k, l);
    }
  }

  lemma SameIds(es: seq<FileEntry>, fs: seq<FileEntry>, i: nat)
    requires SamePlaces(es, fs) && i < |es|
    ensures Ids(es[..i]) == Ids(fs[..i]) && fs[i].(parentId := 0) == es[i].(parentId := 0)
  {
    forall e | e in es[..i] ensures exists f :: f in fs[..i] && f.id == e.id {
      var j :| 0 <= j < i && es[j] == e;
      assert fs[..i][j] in fs[..i];
    }
    forall f | f in fs[..i] ensures exists e :: e in es[..i] && f.id == e.id {
      var j :| 0 <= j < i && fs[j] == f;
      assert es[..i][j] in es[..i];
    }
  }

  lemma NotBefore(raws: seq<RawEntry>, k: nat, l: nat)
    requires SortedBy(ByRawPath, raws) && k <= l < |raws|
    ensures !StringLess(raws[l].path, raws[k].path)
  {
    StringLessIsOrder();
    var less := ByRawPath;
    if k < l { assert !less(raws[l], raws[k]); }
  }

  /** Main result: the entries of a build come in the order of the scanned paths; each is the first that was
      scanned at its path, with its type, metadata and name, and its id is the first of its candidates that
      no entry before it has. */
  lemma BuiltInOrder(hash: Hash, digest: Digest, scan: RawScan, options: BuildOptions, r: BuildResult)
    returns (sources: seq<RawEntry>)
    requires Probing(hash, scan.entries) && IsBuild(hash, digest, scan, options, r)
    ensures |sources| == |r.snapshot.entries|
    ensures forall i :: 0 <= i < |sources| ==> BuiltOf(hash, scan.entries, r.snapshot.entries, i, sources[i])
    ensures forall i, j :: 0 <= i < j < |sources| ==> !StringLess(sources[j].path, sources[i].path)
  {
    hide Paths.Normalize, Permutation, BuildFrom, ProbesEnd, SortedBy, MadeOf, BuiltOf, HangsByPath, SamePlaces;
    var raws :| IsBuildVia(hash, digest, scan, options, raws, r);
    assert ProbesEnd(hash, raws);
    BuildHangsByPath(hash, digest, scan, options, raws, r);
    GatherSources(hash, raws);
    var es, places := Gather(hash, raws).entries, Sources(hash, raws);
    PlacesBelow(hash, raws, es, places);
    assert |es| == |r.snapshot.entries| by { SameLengths(es, r.snapshot.entries); }
    sources := seq(|places|, i requires 0 <= i < |places| => raws[places[i]]);
    forall i | 0 <= i < |sources| ensures BuiltOf(hash, scan.entries, r.snapshot.entries, i, sources[i]) {
      BuiltOfMade(hash, scan.entries, raws, es, r.snapshot.entries, i, places[i]);
    }
    forall i, j | 0 <= i < j < |sources| ensures !StringLess(sources[j].path, sources[i].path) {
      NotBefore(raws, places[i], places[j]);
    }
  }

  lemma SameLengths(es: seq<FileEntry>, fs: seq<FileEntry>)
    requires SamePlaces(es, fs)
    ensures |es| == |fs|
  {}

  /** Scanned paths that are already normal come out in their order, without repeats. */
  lemma PathsComeInOrder(hash: Hash, digest: Digest, scan: RawScan, options: BuildOptions, r: BuildResult)
    requires Probing(hash, scan.entries) && IsBuild(hash, digest, scan, options, r)
    requires forall raw :: raw in scan.entries ==> Paths.Normalize(raw.path) == raw.path
    ensures forall i, j :: 0 <= i < j < |r.snapshot.entries| ==> StringLess(r.snapshot.entries[i].path, r.snapshot.entries[j].path)
  {
    hide IsBuild, Paths.Normalize, FirstFreeId, FromScan;
    var sources := BuiltInOrder(hash, digest, scan, options, r);
    BuildIsKeyed(hash, digest, scan, options, r);
    var es := r.snapshot.entries;
    forall i, j | 0 <= i < j < |es| ensures StringLess(es[i].path, es[j].path) {
      assert BuiltOf(hash, scan.entries, es, i, sources[i]) && BuiltOf(hash, scan.entries, es, j, sources[j]);
      StringLessTotal(es[i].path, es[j].path);
    }
  }

  /** The header of a build: the current schema, the scanned host, the given time or else the time of the scan,
      and the given id or else the digest of what was built, with 1 in place of 0. */
  lemma BuildHeader(hash: Hash, digest: Digest, scan: RawScan, options: BuildOptions, r: BuildResult)
    requires IsBuild(hash, digest, scan, options, r)
    ensures r.snapshot.schema == SchemaHeader(1, 0, 0, 1) && r.snapshot.hostIdentifier == scan.hostIdentifier
    ensures options.createdAt != 0 ==> r.snapshot.createdAt == options.createdAt
    ensures options.createdAt == 0 ==> r.snapshot.createdAt == scan.scannedAt
    ensures options.snapshotId != 0 ==> r.snapshot.snapshotId == options.snapshotId
    ensures var d := digest(r.snapshot.(snapshotId := 0));
      options.snapshotId == 0 && d != 0 ==> r.snapshot.snapshotId == d
    ensures options.snapshotId == 0 && digest(r.snapshot.(snapshotId := 0)) == 0 ==> r.snapshot.snapshotId == 1
  {
    hide Paths.Normalize, Permutation, Gather, LinkAll, MissingParents, IdAtPath, SortedBy;
    var raws :| IsBuildVia(hash, digest, scan, options, raws, r);
  }
}
