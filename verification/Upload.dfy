/** The byte budget of a directory upload: the estimate in the request loop, and the workers that
    decode the files concurrently against an atomic total. */
module Upload {
  import opened Base64
  import opened Domain
  import Paths

  /** Sizes are 64-bit and wrap. */
  datatype Limits = Limits(maxFileBytes: u64, maxFiles: u64, maxTotalBytes: u64)

  datatype Verdict = Accepted | InvalidPath | InvalidLength | FileTooLarge | TotalTooLarge | TooManyFiles

  function WrapSub(a: u64, b: u64): u64 {
    (a - b) % 0x1_0000_0000_0000_0000
  }

  function EstimateOf(content: string): nat {
    if EstimateDecodedSize(content).Some? then EstimateDecodedSize(content).value else 0
  }

  function TotalEstimate(files: seq<string>): nat {
    if files == [] then 0 else TotalEstimate(files[..|files| - 1]) + EstimateOf(files[|files| - 1])
  }

  /** The text of a request is in memory, so its size fits in a size_t. */
  ghost predicate InMemory(files: seq<string>) {
    |files| <= U64_MAX && TotalEstimate(files) <= U64_MAX
  }

  lemma {:induction false} PrefixInMemory(files: seq<string>, n: nat)
    requires n <= |files|
    ensures TotalEstimate(files[..n]) <= TotalEstimate(files)
    decreases |files| - n
  {
    if n < |files| {
      PrefixInMemory(files, n + 1);
      assert files[..n + 1][..n] == files[..n];
    } else {
      assert files[..n] == files;
    }
  }

  /** The verdict on one file, given what was counted before it. */
  function FileVerdict(limits: Limits, counted: u64, content: string): Verdict {
    if EstimateDecodedSize(content).None? then InvalidLength
    else if EstimateOf(content) > limits.maxFileBytes then FileTooLarge
    else if counted > WrapSub(limits.maxTotalBytes, EstimateOf(content)) then TotalTooLarge
    else Accepted
  }

  /** What the request loop accepts, paths aside. */
  ghost predicate AcceptedRequest(limits: Limits, files: seq<string>) {
    InMemory(files) && |files| <= limits.maxFiles && EveryFilePasses(limits, files)
  }

  datatype UploadItem = UploadItem(relativePath: string, content: string)

  function Contents(items: seq<UploadItem>): (r: seq<string>)
    ensures |r| == |items|
  {
    seq(|items|, i requires 0 <= i < |items| => items[i].content)
  }

  predicate PathBad(path: string) {
    path == "" || Paths.IsAbsolute(path) || Paths.HasTraversal(path)
  }

  /** The verdict on a file of a request, given what was counted before it. */
  function ItemVerdict(limits: Limits, counted: u64, item: UploadItem): Verdict {
    if PathBad(item.relativePath) then InvalidPath else FileVerdict(limits, counted, item.content)
  }

  ghost predicate ItemPasses(limits: Limits, items: seq<UploadItem>, i: nat)
    requires i < |items|
  {
    !PathBad(items[i].relativePath) && FilePasses(limits, Contents(items), i)
  }

  /** The i-th file is the first that does not pass, with this verdict. */
  ghost predicate FailsFirst(limits: Limits, items: seq<UploadItem>, i: nat, verdict: Verdict) {
    && i < |items| && !ItemPasses(limits, items, i)
    && (forall j {:trigger ItemPasses(limits, items, j)} :: 0 <= j < i ==> ItemPasses(limits, items, j))
    && TotalEstimate(Contents(items)[..i]) <= U64_MAX
    && verdict == ItemVerdict(limits, TotalEstimate(Contents(items)[..i]), items[i])
  }

  ghost predicate AllPass(limits: Limits, items: seq<UploadItem>) {
    && |items| <= limits.maxFiles && EveryFilePasses(limits, Contents(items))
    && forall i :: 0 <= i < |items| ==> !PathBad(items[i].relativePath)
  }

  lemma ItemsPass(limits: Limits, items: seq<UploadItem>)
    requires |items| <= limits.maxFiles
    ensures AllPass(limits, items) <==> forall i {:trigger ItemPasses(limits, items, i)} :: 0 <= i < |items| ==> ItemPasses(limits, items, i)
  {
    hide PathBad, FileVerdict;
    if AllPass(limits, items) {
      forall i | 0 <= i < |items| ensures ItemPasses(limits, items, i) { assert FilePasses(limits, Contents(items), i); }
    }
    if forall i {:trigger ItemPasses(limits, items, i)} :: 0 <= i < |items| ==> ItemPasses(limits, items, i) {
      forall i | 0 <= i < |items| ensures FilePasses(limits, Contents(items), i) && !PathBad(items[i].relativePath) {
        assert ItemPasses(limits, items, i);
      }
    }
  }

  lemma PassesIff(limits: Limits, items: seq<UploadItem>, i: nat, counted: u64)
    requires i < |items| && counted == TotalEstimate(Contents(items)[..i])
    ensures ItemPasses(limits, items, i) <==> ItemVerdict(limits, counted, items[i]) == Accepted
    ensures ItemVerdict(limits, counted, items[i]) != TooManyFiles
  {
    hide PathBad, TotalEstimate;
  }

  /** The request loop: accepted when there are not too many files and each of them passes with the
      estimates before it; otherwise the verdict is that on the first file that does not. */
  method CheckRequest(limits: Limits, items: seq<UploadItem>) returns (verdict: Verdict)
    requires InMemory(Contents(items))
    ensures verdict == Accepted <==> AllPass(limits, items)
    ensures verdict == TooManyFiles <==> |items| > limits.maxFiles
    ensures verdict != Accepted && verdict != TooManyFiles ==> exists i :: FailsFirst(limits, items, i, verdict)
  {
    hide PathBad, EstimateOf, FileVerdict, ItemVerdict, EveryFilePasses, ItemPasses;
    if |items| > limits.maxFiles {
      return TooManyFiles;
    }
    ItemsPass(limits, items);
    hide AllPass;
    ghost var files := Contents(items);
    var estimatedTotal: u64 := 0;
    for i := 0 to |items|
      invariant estimatedTotal == TotalEstimate(files[..i])
      invariant forall j {:trigger ItemPasses(limits, items, j)} :: 0 <= j < i ==> ItemPasses(limits, items, j)
    {
      assert files[..i + 1][..i] == files[..i];
      PrefixInMemory(files, i);
      PrefixInMemory(files, i + 1);
      PassesIff(limits, items, i, estimatedTotal);
      verdict := ItemVerdict(limits, estimatedTotal, items[i]);
      if verdict != Accepted {
        assert FailsFirst(limits, items, i, verdict);
        return;
      }
      estimatedTotal := estimatedTotal + EstimateOf(items[i].content);
    }
    verdict := Accepted;
  }

  /** Each file passes with the estimates before it. */
  ghost predicate EveryFilePasses(limits: Limits, files: seq<string>) {
    forall i {:trigger FilePasses(limits, files, i)} :: 0 <= i < |files| ==> FilePasses(limits, files, i)
  }

  ghost predicate FilePasses(limits: Limits, files: seq<string>, i: nat)
    requires i < |files|
  {
    TotalEstimate(files[..i]) <= U64_MAX && FileVerdict(limits, TotalEstimate(files[..i]), files[i]) == Accepted
  }

  // ---- The verdicts on the fields of a request ----

  /** The estimate: three bytes for four characters, less one for each padding in the last two places. */
  lemma EstimateIs(front: string, c: char, d: char)
    requires (|front| + 2) % 4 == 0
    ensures var most := (|front| + 2) / 4 * 3;
      EstimateOf(front + [c, d]) ==
        if c == '=' && d == '=' then most - 2 else if c == '=' || d == '=' then most - 1 else most
    ensures EstimateOf("") == 0
  {}

  lemma PathBadIff(path: string)
    ensures PathBad(path) <==> path == "" || path[0] == '/' || ".." in Paths.Split(path)
  {}

  lemma WrappedPasses(limit: u64, counted: nat, size: nat)
    requires counted + size <= U64_MAX
    ensures !(counted > WrapSub(limit, size)) <==> size > limit || counted + size <= limit
  {
    if size > limit { assert WrapSub(limit, size) == limit - size + 0x1_0000_0000_0000_0000; }
  }

  /** One file passes when its length is that of base64, its estimate is within the limit of a file, and
      the estimates up to it are within the total, unless it alone exceeds the total. */
  lemma FilePassesIff(limits: Limits, files: seq<string>, i: nat)
    requires i < |files| && TotalEstimate(files) <= U64_MAX
    ensures FilePasses(limits, files, i) <==>
      && |files[i]| % 4 == 0 && EstimateOf(files[i]) <= limits.maxFileBytes
      && (EstimateOf(files[i]) > limits.maxTotalBytes || TotalEstimate(files[..i + 1]) <= limits.maxTotalBytes)
  {
    hide WrapSub;
    PrefixInMemory(files, i);
    PrefixInMemory(files, i + 1);
    assert files[..i + 1][..i] == files[..i];
    WrappedPasses(limits.maxTotalBytes, TotalEstimate(files[..i]), EstimateOf(files[i]));
  }

  /** What a file of an accepted request satisfies, on its fields. */
  ghost predicate FileWithin(limits: Limits, items: seq<UploadItem>, i: nat)
    requires i < |items|
  {
    var path, content, size := items[i].relativePath, items[i].content, EstimateOf(items[i].content);
    && path != "" && path[0] != '/' && ".." !in Paths.Split(path)
    && |content| % 4 == 0 && size <= limits.maxFileBytes
    && (size > limits.maxTotalBytes || TotalEstimate(Contents(items)[..i + 1]) <= limits.maxTotalBytes)
  }

  /** Main result: which requests the loop accepts, on the paths, lengths and estimates of their files. */
  lemma AllPassIff(limits: Limits, items: seq<UploadItem>)
    requires TotalEstimate(Contents(items)) <= U64_MAX
    ensures AllPass(limits, items) <==>
      |items| <= limits.maxFiles && forall i :: 0 <= i < |items| ==> FileWithin(limits, items, i)
  {
    if |items| <= limits.maxFiles {
      hide ItemPasses, AllPass, FileWithin;
      ItemsPass(limits, items);
      forall i | 0 <= i < |items| ensures ItemPasses(limits, items, i) <==> FileWithin(limits, items, i) {
        FileWithinIff(limits, items, i);
      }
    }
  }

  lemma FileWithinIff(limits: Limits, items: seq<UploadItem>, i: nat)
    requires i < |items| && TotalEstimate(Contents(items)) <= U64_MAX
    ensures ItemPasses(limits, items, i) <==> FileWithin(limits, items, i)
  {
    hide FilePasses, TotalEstimate, EstimateOf, Paths.Split, PathBad;
    PathBadIff(items[i].relativePath);
    FilePassesIff(limits, Contents(items), i);
  }

  /** Main result: which verdict the first failing file gets; a bad path goes before a bad length, that before a
      file that is too large, and that before a total that is. */
  lemma VerdictMeans(limits: Limits, items: seq<UploadItem>, i: nat, verdict: Verdict)
    requires FailsFirst(limits, items, i, verdict)
    ensures var bad := var path := items[i].relativePath; path == "" || path[0] == '/' || ".." in Paths.Split(path);
      var odd, large := |items[i].content| % 4 != 0, EstimateOf(items[i].content) > limits.maxFileBytes;
      && (verdict == InvalidPath <==> bad)
      && (verdict == InvalidLength <==> !bad && odd)
      && (verdict == FileTooLarge <==> !bad && !odd && large)
      && (verdict == TotalTooLarge <==> !bad && !odd && !large)
  {
    hide Paths.Split, WrapSub, TotalEstimate;
    PathBadIff(items[i].relativePath);
  }

  // ---- The limits ----

  /** When no file may be larger than the request, an accepted request stays within its total. */
  lemma {:induction false} AcceptedFits(limits: Limits, files: seq<string>)
    requires limits.maxFileBytes <= limits.maxTotalBytes && EveryFilePasses(limits, files)
    ensures TotalEstimate(files) <= limits.maxTotalBytes
  {
    if files != [] {
      var n := |files| - 1;
      assert FilePasses(limits, files, n);
    }
  }

  /** When a file may be larger than the request, the subtraction wraps and one file slips through. */
  lemma LargeFileSlips(limits: Limits, raw: seq<u8>)
    requires limits.maxTotalBytes < |raw| <= limits.maxFileBytes
    ensures EveryFilePasses(limits, [Encode(raw)]) && TotalEstimate([Encode(raw)]) > limits.maxTotalBytes
  {
    EstimateOfEncoding(raw);
    var files := [Encode(raw)];
    assert files[..0] == [];
    assert FilePasses(limits, files, 0);
  }

  /** Main result: the request loop keeps every accepted request within the total limit exactly
      when the file limit does not exceed the total limit, or no file is allowed at all. */
  lemma LoopIsSafeIff(limits: Limits)
    ensures (forall files :: AcceptedRequest(limits, files) ==> TotalEstimate(files) <= limits.maxTotalBytes)
      <==> limits.maxFileBytes <= limits.maxTotalBytes || limits.maxFiles == 0
  {
    if limits.maxFileBytes <= limits.maxTotalBytes {
      forall files | AcceptedRequest(limits, files) ensures TotalEstimate(files) <= limits.maxTotalBytes {
        AcceptedFits(limits, files);
      }
    } else if limits.maxFiles > 0 {
      var zero: u8 := 0;
      var raw := seq(limits.maxTotalBytes as nat + 1, _ => zero);
      LargeFileSlips(limits, raw);
      OneFileInMemory(Encode(raw), raw);
      assert AcceptedRequest(limits, [Encode(raw)]);
    }
  }

  lemma OneFileInMemory(content: string, raw: seq<u8>)
    requires content == Encode(raw) && |raw| <= U64_MAX
    ensures InMemory([content])
  {
    EstimateOfEncoding(raw);
    assert [content][..0] == [];
  }

  // ---- The workers ----

  /** `claimed` is the index a worker has taken from the shared counter and not yet counted. */
  datatype Workers = Workers(nextIndex: nat, totalBytes: u64, claimed: map<nat, nat>, counted: set<nat>, sizeRejections: seq<nat>)

  const STARTED := Workers(0, 0, map[], {}, [])

  ghost predicate ClaimStep(files: seq<string>, w: Workers, w': Workers, worker: nat) {
    && worker !in w.claimed && w.nextIndex < |files|
    && w' == w.(nextIndex := w.nextIndex + 1, claimed := w.claimed[worker := w.nextIndex])
  }

  /** Decoding, the file check, and the atomic addition to the total with the check on what it was. */
  ghost predicate CountStep(limits: Limits, files: seq<string>, w: Workers, w': Workers, worker: nat) {
    && worker in w.claimed && w.claimed[worker] < |files|
    && var i := w.claimed[worker];
       var rest := w.claimed - {worker};
       match Decode(files[i])
       case None => w' == w.(claimed := rest)
       case Some(bs) =>
         if |bs| > limits.maxFileBytes then w' == w.(claimed := rest, sizeRejections := w.sizeRejections + [i])
         else
           var added := w.(claimed := rest, counted := w.counted + {i},
                           totalBytes := (w.totalBytes + |bs|) % 0x1_0000_0000_0000_0000);
           if w.totalBytes > limits.maxTotalBytes || |bs| > WrapSub(limits.maxTotalBytes, w.totalBytes)
           then w' == added.(sizeRejections := w.sizeRejections + [i])
           else w' == added
  }

  ghost predicate WorkerStep(limits: Limits, files: seq<string>, w: Workers, w': Workers) {
    || (exists worker :: ClaimStep(files, w, w', worker))
    || (exists worker :: CountStep(limits, files, w, w', worker))
  }

  function DecodedSizeOf(content: string): nat {
    match Decode(content)
    case None => 0
    case Some(bs) => |bs|
  }

  /** The decoded size of the first `n` files that are in the set. */
  function CountedSize(files: seq<string>, counted: set<nat>, n: nat): nat
    requires n <= |files|
  {
    if n == 0 then 0
    else CountedSize(files, counted, n - 1) + if n - 1 in counted then DecodedSizeOf(files[n - 1]) else 0
  }

  lemma {:induction false} CountedOneMore(files: seq<string>, counted: set<nat>, i: nat, n: nat)
    requires n <= |files| && i < |files| && i !in counted
    ensures CountedSize(files, counted + {i}, n) == CountedSize(files, counted, n) + if i < n then DecodedSizeOf(files[i]) else 0
  {
    if n > 0 { CountedOneMore(files, counted, i, n - 1); }
  }

  lemma {:induction false} CountedWithinEstimates(files: seq<string>, counted: set<nat>, n: nat)
    requires n <= |files|
    ensures CountedSize(files, counted, n) <= TotalEstimate(files[..n])
  {
    if n > 0 {
      CountedWithinEstimates(files, counted, n - 1);
      assert files[..n][..n - 1] == files[..n - 1];
      if Decode(files[n - 1]).Some? { EstimateBounds(files[n - 1]); }
    } else {
      assert files[..0] == [];
    }
  }

  ghost predicate WorkersOk(files: seq<string>, w: Workers) {
    && w.nextIndex <= |files|
    && (forall x :: x in w.claimed ==> w.claimed[x] < w.nextIndex && w.claimed[x] !in w.counted)
    && (forall x, y :: x in w.claimed && y in w.claimed && x != y ==> w.claimed[x] != w.claimed[y])
    && (forall i :: i in w.counted ==> i < w.nextIndex)
    && w.totalBytes == CountedSize(files, w.counted, |files|)
    && w.sizeRejections == []
  }

  /** What a worker decodes is no larger than was estimated. */
  lemma DecodedPasses(limits: Limits, files: seq<string>, i: nat)
    requires EveryFilePasses(limits, files) && i < |files|
    ensures DecodedSizeOf(files[i]) <= limits.maxFileBytes
  {
    assert FilePasses(limits, files, i);
    if Decode(files[i]).Some? { EstimateBounds(files[i]); }
  }

  lemma CountKeeps(limits: Limits, files: seq<string>, w: Workers, w': Workers, worker: nat)
    requires limits.maxFileBytes <= limits.maxTotalBytes && EveryFilePasses(limits, files)
    requires WorkersOk(files, w) && CountStep(limits, files, w, w', worker)
    ensures WorkersOk(files, w')
  {
    hide CountedSize, EveryFilePasses, Decode;
    var i := w.claimed[worker];
    DecodedPasses(limits, files, i);
    CountedOneMore(files, w.counted, i, |files|);
    CountedWithinEstimates(files, w.counted + {i}, |files|);
    AcceptedFits(limits, files);
    assert files[..|files|] == files;
  }

  lemma ClaimKeeps(files: seq<string>, w: Workers, w': Workers, worker: nat)
    requires WorkersOk(files, w) && ClaimStep(files, w, w', worker)
    ensures WorkersOk(files, w')
  {
    hide CountedSize;
  }

  lemma {:induction false} NothingCounted(files: seq<string>, n: nat)
    requires n <= |files|
    ensures CountedSize(files, {}, n) == 0
  {
    if n > 0 { NothingCounted(files, n - 1); }
  }

  /** Main result: after a request that passed the loop, with the file limit within the total limit,
      no worker in any interleaving rejects a file for its size, and the total is exact. */
  lemma {:induction false} WorkersNeverReject(limits: Limits, files: seq<string>, run: seq<Workers>)
    requires limits.maxFileBytes <= limits.maxTotalBytes && EveryFilePasses(limits, files)
    requires run != [] && run[0] == STARTED
    requires forall k :: 0 <= k < |run| - 1 ==> WorkerStep(limits, files, run[k], run[k + 1])
    ensures WorkersOk(files, run[|run| - 1]) && run[|run| - 1].sizeRejections == []
  {
    hide EveryFilePasses, CountedSize, WorkersOk, ClaimStep, CountStep;
    var n := |run| - 1;
    if n == 0 {
      NothingCounted(files, |files|);
      StartedOk(files);
    } else {
      WorkersNeverReject(limits, files, run[..n]);
      assert WorkerStep(limits, files, run[n - 1], run[n - 1 + 1]);
      var w, w' := run[n - 1], run[n];
      if worker :| ClaimStep(files, w, w', worker) {
        ClaimKeeps(files, w, w', worker);
      } else {
        var worker :| CountStep(limits, files, w, w', worker);
        CountKeeps(limits, files, w, w', worker);
      }
    }
    OkMeansNone(files, run[n]);
  }

  lemma StartedOk(files: seq<string>)
    requires CountedSize(files, {}, |files|) == 0
    ensures WorkersOk(files, STARTED)
  {}

  lemma OkMeansNone(files: seq<string>, w: Workers)
    requires WorkersOk(files, w)
    ensures w.sizeRejections == []
  {}
}
