/**
 * The six consoles, each as the policy it applies to one line of input: which parser it
 * uses, how many identifiers a batch may hold, whether errors accumulate or the first one
 * aborts, and how jobs are given scanner slots. The result is a verdict: the errors that
 * refuse the batch, or the rounds of jobs that are launched.
 */
module Variants {
  import opened Wrappers
  import opened Text
  import opened Jobs
  import opened QrFormat
  import opened Registry
  import opened InputParser
  import opened Validator
  import opened Dispatch
  import opened Filenames

  datatype Verdict =
    | Rejected(errors: seq<BatchError>)     // everything the console reported, in order
    | Dispatched(rounds: seq<seq<Job>>)     // the `run_batch` calls, in order

  // ---------------------------------------------------------------------------
  // The locking batch consoles (SAVE_parallelscan_BATCH1/2): accumulate errors, at most four

  /** One locking console: its colour pattern and tables, and whether the legacy form is accepted. */
  datatype BatchConsole = BatchConsole(
    keywords: seq<string>,
    canon: map<string, string>,
    colorToScanner: map<string, int>,
    legacy: bool)

  const Save1: BatchConsole := BatchConsole(Batch1Keywords, Batch1Canon, Batch1ColorToScanner, true)
  const Save2: BatchConsole := BatchConsole(Batch2Keywords, Batch2Canon, Batch2ColorToScanner, false)

  const BatchLimit: nat := 4
  const FleetLimit: nat := 8

  /** The tables of a console fit together: every keyword canonicalises, every label has one scanner. */
  ghost predicate ConsistentTables(c: BatchConsole)
  {
    && (forall w | w in c.keywords :: w in c.canon)
    && (forall w | w in c.canon :: c.canon[w] in c.colorToScanner)
    && (forall a, b | a in c.colorToScanner && b in c.colorToScanner && a != b ::
          c.colorToScanner[a] != c.colorToScanner[b])
  }

  function ErrorsOf(e: Option<BatchError>): seq<BatchError>
  {
    match e
    case Some(x) => [x]
    case None => []
  }

  /**
   * One pass of the locking console's loop: parse, then check what was parsed. A parse
   * that raises ends the pass with that error.
   */
  function BatchConsoleRun(c: BatchConsole, raw: string): (v: Verdict)
    requires forall w | w in c.keywords :: w in c.canon
    ensures v.Rejected? ==> v.errors != []
    ensures var p := ParseScannedInput(c.keywords, c.canon, c.legacy, raw);
      p.Ok? && CountsPass(c, p.value.qrs, p.value.colors) && v.Rejected? ==>
        forall j | 0 <= j < |p.value.qrs| ::
          && (MalformedQr(j + 1) in v.errors <==> !ValidQr(p.value.qrs[j]))
          && (DuplicateQr(j + 1) in v.errors <==> ValidQr(p.value.qrs[j]) && p.value.qrs[j] in p.value.qrs[..j])
  {
    match ParseScannedInput(c.keywords, c.canon, c.legacy, raw)
    case Err(e) => Rejected([e])
    case Ok(Parsed(qrs, colors)) => CheckBatch(c, qrs, colors)
  }

  /** The pairing, emptiness and size checks pass, so the pass reaches the identifier loop. */
  ghost predicate CountsPass(c: BatchConsole, qrs: seq<string>, colors: seq<string>)
  {
    1 <= |qrs| <= BatchLimit && Paired(c, qrs, colors)
  }

  /** The pairing checks pass: as many colours as identifiers, or none where the legacy form is accepted. */
  ghost predicate Paired(c: BatchConsole, qrs: seq<string>, colors: seq<string>)
  {
    if colors == [] then c.legacy else |colors| == |qrs|
  }

  /** At most one job-building error, then `last`. */
  ghost predicate EndsWithAfterBuild(errors: seq<BatchError>, last: BatchError)
  {
    && 1 <= |errors| <= 2
    && errors[|errors| - 1] == last
    && (|errors| == 2 ==> errors[0].UnknownColor? || errors[0].DuplicateScanner?)
  }

  /** The errors that end a pass before the identifier loop. */
  predicate EndsPass(e: BatchError)
  {
    e == ColorCountMismatch || e == NoColorEntries || e == NoQrCodes || e == TooMany(BatchLimit)
  }

  /**
   * The checks after parsing: build the jobs (colour lookup that stops at the first bad
   * colour, or slots `1..` in the legacy form); then the emptiness and size checks, which
   * end the pass; then the identifier checks, which visit every position. The batch runs
   * only if nothing at all was reported.
   */
  function CheckBatch(c: BatchConsole, qrs: seq<string>, colors: seq<string>): (v: Verdict)
    ensures v.Rejected? ==> v.errors != []
    ensures !CountsPass(c, qrs, colors) ==> v.Rejected? && EndsPass(v.errors[|v.errors| - 1])
    ensures colors != [] && |colors| != |qrs| ==> v == Rejected([ColorCountMismatch])
    ensures colors == [] && !c.legacy ==> v == Rejected([NoColorEntries])
    ensures Paired(c, qrs, colors) && qrs == [] ==> v.Rejected? && EndsWithAfterBuild(v.errors, NoQrCodes)
    ensures Paired(c, qrs, colors) && |qrs| > BatchLimit ==>
      v.Rejected? && EndsWithAfterBuild(v.errors, TooMany(BatchLimit))
    ensures CountsPass(c, qrs, colors) && v.Rejected? ==>
      var n := |QrChecks(qrs)|;
      && n <= |v.errors| <= n + 1
      && v.errors[|v.errors| - n..] == QrChecks(qrs)
      && (|v.errors| == n + 1 ==>
            colors != [] && (v.errors[0].UnknownColor? || v.errors[0].DuplicateScanner?))
    ensures CountsPass(c, qrs, colors) && v.Rejected? ==>
      forall j | 0 <= j < |qrs| ::
        && (MalformedQr(j + 1) in v.errors <==> !ValidQr(qrs[j]))
        && (DuplicateQr(j + 1) in v.errors <==> ValidQr(qrs[j]) && qrs[j] in qrs[..j])
  {
    if colors != [] && |colors| != |qrs| then Rejected([ColorCountMismatch])
    else if colors == [] && !c.legacy then Rejected([NoColorEntries])
    else
      var built := if colors != [] then BuildColorJobs(c.colorToScanner, colors, qrs)
                   else Built(Positional(1, qrs), None);
      var buildErrors := ErrorsOf(built.error);
      if qrs == [] then Rejected(buildErrors + [NoQrCodes])
      else if (colors != [] && |colors| > BatchLimit) || (colors == [] && |qrs| > BatchLimit) then
        Rejected(buildErrors + [TooMany(BatchLimit)])
      else
        var errors := buildErrors + QrChecks(qrs);
        if errors == [] then Dispatched([built.jobs])
        else
          ReportNamesEveryPosition(errors, qrs);
          Rejected(errors)
  }

  /**
   * A report made of at most one job-building error followed by the identifier loop's errors
   * names every bad position: `MalformedQr(k)` iff identifier `k` is ill-formed, and
   * `DuplicateQr(k)` iff it is well-formed and repeats an earlier identifier.
   */
  lemma ReportNamesEveryPosition(errors: seq<BatchError>, qrs: seq<string>)
    requires |QrChecks(qrs)| <= |errors| <= |QrChecks(qrs)| + 1
    requires errors[|errors| - |QrChecks(qrs)|..] == QrChecks(qrs)
    requires |errors| == |QrChecks(qrs)| + 1 ==> errors[0].UnknownColor? || errors[0].DuplicateScanner?
    ensures forall j | 0 <= j < |qrs| ::
      && (MalformedQr(j + 1) in errors <==> !ValidQr(qrs[j]))
      && (DuplicateQr(j + 1) in errors <==> ValidQr(qrs[j]) && qrs[j] in qrs[..j])
  {
    forall j | 0 <= j < |qrs|
      ensures MalformedQr(j + 1) in errors <==> !ValidQr(qrs[j])
      ensures DuplicateQr(j + 1) in errors <==> ValidQr(qrs[j]) && qrs[j] in qrs[..j]
    {
      QrChecksReportsEveryPosition(qrs, j + 1);
      ReportEndsWith(errors, QrChecks(qrs), MalformedQr(j + 1));
      ReportEndsWith(errors, QrChecks(qrs), DuplicateQr(j + 1));
    }
  }

  /** An identifier error is in a report that is at most one build error and then `tail`, iff it is in `tail`. */
  lemma ReportEndsWith(errors: seq<BatchError>, tail: seq<BatchError>, e: BatchError)
    requires |tail| <= |errors| <= |tail| + 1
    requires errors[|errors| - |tail|..] == tail
    requires |errors| == |tail| + 1 ==> errors[0].UnknownColor? || errors[0].DuplicateScanner?
    requires e.MalformedQr? || e.DuplicateQr?
    ensures e in errors <==> e in tail
  {
    if |errors| == |tail| + 1 {
      assert errors == [errors[0]] + tail;
    } else {
      assert errors == tail;
    }
  }

  /** Under consistent tables, two colours name the same scanner only if they are the same colour. */
  lemma DistinctScanners(c: BatchConsole, colors: seq<string>)
    requires ConsistentTables(c)
    requires forall i | 0 <= i < |colors| :: colors[i] in c.canon.Values
    ensures forall i | 0 <= i < |colors| :: colors[i] in c.colorToScanner
    ensures (forall j, k | 0 <= j < k < |colors| :: c.colorToScanner[colors[j]] != c.colorToScanner[colors[k]])
        <==> Distinct(colors)
  {
    forall i | 0 <= i < |colors|
      ensures colors[i] in c.colorToScanner
    {
      assert colors[i] in c.canon.Values;
      var w :| w in c.canon && c.canon[w] == colors[i];
    }
  }

  /**
   * In the colour form, the checks pass exactly when there are one to four pairs, no colour
   * repeats, and the identifiers are well-formed and distinct; the one round then puts each
   * identifier on its colour's scanner, in input order.
   */
  lemma CheckColorBatch(c: BatchConsole, qrs: seq<string>, colors: seq<string>)
    requires ConsistentTables(c)
    requires colors != [] && |colors| == |qrs|
    requires forall i | 0 <= i < |colors| :: colors[i] in c.canon.Values
    ensures CheckBatch(c, qrs, colors).Dispatched? <==>
      && |qrs| <= BatchLimit
      && (forall i | 0 <= i < |qrs| :: ValidQr(qrs[i]))
      && Distinct(qrs)
      && Distinct(colors)
    ensures var v := CheckBatch(c, qrs, colors);
      v.Dispatched? ==>
        && |v.rounds| == 1 && QrsOf(v.rounds[0]) == qrs
        && (forall i | 0 <= i < |colors| ::
              colors[i] in c.colorToScanner && v.rounds[0][i].scanner == c.colorToScanner[colors[i]])
  {
    QrChecksEmpty(qrs);
    DistinctScanners(c, colors);
    BuildColorJobsSucceeds(c.colorToScanner, colors, qrs);
  }

  /**
   * In the legacy form, the checks pass exactly when there are one to four identifiers, all
   * well-formed and distinct; the one round puts position `i` on scanner `i + 1`.
   */
  lemma CheckLegacyBatch(c: BatchConsole, qrs: seq<string>)
    requires c.legacy
    ensures CheckBatch(c, qrs, []).Dispatched? <==>
      && 1 <= |qrs| <= BatchLimit
      && (forall i | 0 <= i < |qrs| :: ValidQr(qrs[i]))
      && Distinct(qrs)
    ensures var v := CheckBatch(c, qrs, []);
      v.Dispatched? ==> v.rounds == [Positional(1, qrs)]
  {
    QrChecksEmpty(qrs);
  }

  /**
   * A locking console launches a batch exactly when the line parses, holds one to four
   * identifiers, every identifier is well-formed, none repeats, and (in the colour form) no
   * colour repeats; the single round then carries the identifiers in input order, on the
   * colour's scanner or, in the legacy form, on scanner `i + 1`.
   */
  lemma BatchConsoleVerdict(c: BatchConsole, raw: string)
    requires ConsistentTables(c)
    ensures var p := ParseScannedInput(c.keywords, c.canon, c.legacy, raw);
      BatchConsoleRun(c, raw).Dispatched? <==>
        && p.Ok?
        && 1 <= |p.value.qrs| <= BatchLimit
        && (forall i | 0 <= i < |p.value.qrs| :: ValidQr(p.value.qrs[i]))
        && Distinct(p.value.qrs)
        && Distinct(p.value.colors)
    ensures var p := ParseScannedInput(c.keywords, c.canon, c.legacy, raw);
      var v := BatchConsoleRun(c, raw);
      v.Dispatched? ==>
        && p.Ok? && |v.rounds| == 1 && QrsOf(v.rounds[0]) == p.value.qrs
        && (p.value.colors == [] ==> v.rounds[0] == Positional(1, p.value.qrs))
        && (forall i | 0 <= i < |p.value.colors| ::
              p.value.colors[i] in c.colorToScanner
              && v.rounds[0][i].scanner == c.colorToScanner[p.value.colors[i]])
  {
    var p := ParseScannedInput(c.keywords, c.canon, c.legacy, raw);
    if p.Ok? {
      var qrs, colors := p.value.qrs, p.value.colors;
      if colors != [] {
        CheckColorBatch(c, qrs, colors);
      } else {
        CheckLegacyBatch(c, qrs);
      }
    }
  }

  /** The Batch 1 tables are consistent. */
  lemma Save1Consistent()
    ensures ConsistentTables(Save1)
  {
    Batch1TablesAgree();
    assert forall w | w in Batch1Keywords :: w in (set w | w in Batch1Keywords);
  }

  /** The Batch 2 tables are consistent. */
  lemma Save2Consistent()
    ensures ConsistentTables(Save2)
  {
    Batch2TablesAgree();
    assert forall w | w in Batch2Keywords :: w in (set w | w in Batch2Keywords);
  }

  /** The colour words of each batch are upper-case letter words, none a prefix of another. */
  lemma Batch1KeywordsGood()
    ensures GoodKeywords(Keywords(Batch1Keywords))
  {
    CapitalWord("BLUE");
    CapitalWord("ORANGE");
    CapitalWord("GRAY");
    CapitalWord("GREEN");
    var ws := Batch1Keywords;
    forall i, j | 0 <= i < |ws| && 0 <= j < |ws| && i != j
      ensures !IsPrefix(ws[i], ws[j])
    {
      if ws[i][0] != ws[j][0] {
        DifferAt(ws[i], ws[j], 0);
      } else {
        DifferAt(ws[i], ws[j], 2);
      }
    }
  }

  lemma Batch2KeywordsGood()
    ensures GoodKeywords(Keywords(Batch2Keywords))
  {
    CapitalWord("WHITE");
    CapitalWord("BLACK");
    CapitalWord("YELLOW");
    CapitalWord("CRIMSON");
    var ws := Batch2Keywords;
    forall i, j | 0 <= i < |ws| && 0 <= j < |ws| && i != j
      ensures !IsPrefix(ws[i], ws[j])
    {
      DifferAt(ws[i], ws[j], 0);
    }
  }

  /** A word of capital letters is an upper-case letter word. */
  lemma CapitalWord(w: string)
    requires w != [] && forall k | 0 <= k < |w| :: 'A' <= w[k] <= 'Z'
    ensures IsUpperWord(w)
  {
    assert Upper(w) == w;
  }

  /** Two words that differ at a shared position are not prefixes of each other. */
  lemma DifferAt(a: string, b: string, k: nat)
    requires k < |a| && k < |b| && a[k] != b[k]
    ensures !IsPrefix(a, b)
  {
    if |a| <= |b| {
      assert b[..|a|][k] == b[k];
    }
  }

  /**
   * A line typed as Batch 1 colour pairs, tags in any letter case and followed by any run of
   * whitespace, reaches the validator as its identifiers, in order, with each colour
   * canonicalised.
   */
  lemma Save1ReadsTaggedLine(ps: seq<Pair>, gaps: seq<string>)
    requires ps != [] && |gaps| == |ps|
    requires forall i | 0 <= i < |ps| :: Renderable(Keywords(Batch1Keywords), ps[i]) && IsGap(gaps[i])
    ensures var r := ParseScannedInput(Batch1Keywords, Batch1Canon, true, RenderPairs(ps, gaps));
      && r.Ok? && r.value.qrs == PairQrs(ps) && |r.value.colors| == |ps|
      && forall i | 0 <= i < |ps| ::
           Upper(ps[i].tag) in Batch1Canon && r.value.colors[i] == Batch1Canon[Upper(ps[i].tag)]
  {
    Save1Consistent();
    Batch1KeywordsGood();
    ParseScannedInputRoundTrip(Batch1Keywords, Batch1Canon, true, ps, gaps);
  }

  lemma Save2ReadsTaggedLine(ps: seq<Pair>, gaps: seq<string>)
    requires ps != [] && |gaps| == |ps|
    requires forall i | 0 <= i < |ps| :: Renderable(Keywords(Batch2Keywords), ps[i]) && IsGap(gaps[i])
    ensures var r := ParseScannedInput(Batch2Keywords, Batch2Canon, false, RenderPairs(ps, gaps));
      && r.Ok? && r.value.qrs == PairQrs(ps) && |r.value.colors| == |ps|
      && forall i | 0 <= i < |ps| ::
           Upper(ps[i].tag) in Batch2Canon && r.value.colors[i] == Batch2Canon[Upper(ps[i].tag)]
  {
    Save2Consistent();
    Batch2KeywordsGood();
    ParseScannedInputRoundTrip(Batch2Keywords, Batch2Canon, false, ps, gaps);
  }

  /** Worked example: `blue'{a}'`, lower case and with no space, is read as a Blue pair. */
  lemma Save1ReadsLowerCase()
    ensures ParseScannedInput(Batch1Keywords, Batch1Canon, true, "blue'{a}'") == Ok(Parsed(["{a}"], ["Blue"]))
  {
    var p := Pair("blue", "{a}");
    assert Upper("blue") == "BLUE";
    assert RenderPairs([p], [""]) == "blue'{a}'" by {
      assert RenderPairs([p], [""]) == RenderPair(p, "") + RenderPairs([], []);
    }
    Save1ReadsTaggedLine([p], [""]);
    var r := ParseScannedInput(Batch1Keywords, Batch1Canon, true, "blue'{a}'");
    assert r.value.colors[0] == Batch1Canon["BLUE"] == "Blue";
    assert r.value.colors == ["Blue"];
    assert r.value.qrs == ["{a}"];
  }

  /** The Batch 2 console never dispatches a line without a colour pair: its legacy form is off. */
  lemma Save2NeedsColors(raw: string)
    ensures BatchConsoleRun(Save2, raw).Dispatched? ==> FindAll(Keywords(Batch2Keywords), raw) != []
    ensures FindAll(Keywords(Batch2Keywords), raw) == [] ==>
      BatchConsoleRun(Save2, raw) == Rejected([LegacyModeDisabled])
  {
    Save2Consistent();
  }

  /**
   * A console whose colour words all map into the slots `base..base + 3`, and whose legacy
   * form (if on) numbers from `base`, only ever launches jobs on those slots.
   */
  lemma BatchSlots(c: BatchConsole, raw: string, base: int)
    requires ConsistentTables(c)
    requires forall w | w in c.canon :: c.canon[w] in c.colorToScanner && base <= c.colorToScanner[c.canon[w]] <= base + 3
    requires c.legacy ==> base == 1
    ensures var v := BatchConsoleRun(c, raw);
      v.Dispatched? ==> forall j | 0 <= j < |v.rounds[0]| :: base <= v.rounds[0][j].scanner <= base + 3
  {
    var p := ParseScannedInput(c.keywords, c.canon, c.legacy, raw);
    if p.Ok? {
      var qrs, colors := p.value.qrs, p.value.colors;
      if colors != [] {
        CheckColorBatch(c, qrs, colors);
        ColorsInSlots(c, colors, base);
      } else {
        CheckLegacyBatch(c, qrs);
      }
    }
  }

  /** Every job the Batch 1 console launches goes to one of scanners 1..4, the slots of its tables. */
  lemma Save1Slots(raw: string)
    ensures var v := BatchConsoleRun(Save1, raw);
      v.Dispatched? ==> forall j | 0 <= j < |v.rounds[0]| :: 1 <= v.rounds[0][j].scanner <= 4
  {
    Save1Consistent();
    Batch1TablesAgree();
    BatchSlots(Save1, raw, 1);
  }

  /** Every job the Batch 2 console launches goes to one of scanners 5..8, the slots of its tables. */
  lemma Save2Slots(raw: string)
    ensures var v := BatchConsoleRun(Save2, raw);
      v.Dispatched? ==> forall j | 0 <= j < |v.rounds[0]| :: 5 <= v.rounds[0][j].scanner <= 8
  {
    Save2Consistent();
    Batch2TablesAgree();
    BatchSlots(Save2, raw, 5);
  }

  /** Canonical colours of a console whose colour words all map into the slots `base..base + 3` land there. */
  lemma ColorsInSlots(c: BatchConsole, colors: seq<string>, base: int)
    requires ConsistentTables(c)
    requires forall i | 0 <= i < |colors| :: colors[i] in c.canon.Values
    requires forall w | w in c.canon :: c.canon[w] in c.colorToScanner && base <= c.colorToScanner[c.canon[w]] <= base + 3
    ensures forall i | 0 <= i < |colors| ::
      colors[i] in c.colorToScanner && base <= c.colorToScanner[colors[i]] <= base + 3
  {
    forall i | 0 <= i < |colors|
      ensures colors[i] in c.colorToScanner && base <= c.colorToScanner[colors[i]] <= base + 3
    {
      assert colors[i] in c.canon.Values;
      var w :| w in c.canon && c.canon[w] == colors[i];
    }
  }

  // ---------------------------------------------------------------------------
  // The legacy Batch 2 console (parallelscan_BATCH2.py): legacy form only, accumulate, at most four

  function Batch2LegacyRun(raw: string): (v: Verdict)
    ensures v.Rejected? ==> v.errors != []
    ensures LegacyQrs(raw) == [] ==> v == Rejected([NoQrCodes])
    ensures |LegacyQrs(raw)| > BatchLimit ==> v == Rejected([TooMany(BatchLimit)])
  {
    var qrs := LegacyQrs(raw);
    if qrs == [] then Rejected([NoQrCodes])
    else if |qrs| > BatchLimit then Rejected([TooMany(BatchLimit)])
    else
      var errors := QrChecks(qrs);
      if errors == [] then Dispatched([Positional(5, qrs)]) else Rejected(errors)
  }

  /**
   * The legacy Batch 2 console launches exactly the lines holding one to four well-formed,
   * distinct identifiers, position `i` on scanner `5 + i`, which is always one of its slots;
   * otherwise it reports every bad position.
   */
  lemma Batch2LegacyVerdict(raw: string)
    ensures var qrs := LegacyQrs(raw);
      Batch2LegacyRun(raw).Dispatched? <==>
        1 <= |qrs| <= BatchLimit && (forall i | 0 <= i < |qrs| :: ValidQr(qrs[i])) && Distinct(qrs)
    ensures var qrs := LegacyQrs(raw);
      var v := Batch2LegacyRun(raw);
      && (v.Dispatched? ==>
            v.rounds == [Positional(5, qrs)] && forall j | 0 <= j < |qrs| :: 5 <= v.rounds[0][j].scanner <= 8)
      && (v.Rejected? && 1 <= |qrs| <= BatchLimit ==> v.errors == QrChecks(qrs))
    ensures var qrs := LegacyQrs(raw);
      var v := Batch2LegacyRun(raw);
      && (qrs == [] ==> v.errors == [NoQrCodes])
      && (|qrs| > BatchLimit ==> v.errors == [TooMany(BatchLimit)])
  {
    QrChecksEmpty(LegacyQrs(raw));
  }

  // ---------------------------------------------------------------------------
  // The colour console (colors_parallelscan.py): any letter run, first error aborts, at most eight

  /** `len(set(nums)) != len(nums)`: some number occurs twice. */
  function HasRepeat(nums: seq<int>): (r: bool)
    ensures !r <==> Distinct(nums)
  {
    if nums == [] then false
    else if nums[0] in nums[1..] then
      assert exists k | 1 <= k < |nums| :: nums[k] == nums[0] by {
        var k :| 0 <= k < |nums[1..]| && nums[1..][k] == nums[0];
        assert nums[k + 1] == nums[0];
      }
      true
    else
      var r := HasRepeat(nums[1..]);
      assert Distinct(nums) <==> Distinct(nums[1..]) by {
        assert forall k | 1 <= k < |nums| :: nums[k] == nums[1..][k - 1] && nums[k] != nums[0];
      }
      r
  }

  /** The jobs of chunk `cs[k]`, as `run_batch(batch_scanners, batch_qrs)` pairs them. */
  function ChunkRounds(cs: seq<seq<Job>>): (rounds: seq<seq<Job>>)
    ensures |rounds| == |cs|
  {
    seq(|cs|, k requires 0 <= k < |cs| => ZipJobs(ScannersOf(cs[k]), QrsOf(cs[k])))
  }

  function ColorsConsoleRun(raw: string): (v: Verdict)
    ensures v.Rejected? ==> |v.errors| == 1
    ensures var p := ParseColorQrPairs(ColorToNum, raw);
      p.Err? ==> v == Rejected([p.error])
    ensures var p := ParseColorQrPairs(ColorToNum, raw);
      p.Ok? ==> PairsRefusal(p.value.0, p.value.1, v)
  {
    match ParseColorQrPairs(ColorToNum, raw)
    case Err(e) => Rejected([e])
    case Ok((nums, qrs)) => CheckPairs(nums, qrs)
  }

  /**
   * The colour console's checks after parsing, each of which ends the pass: no pairs, more
   * than eight, a repeated scanner, then the first bad identifier. What survives is launched
   * four at a time. The parser always yields as many numbers as identifiers.
   */
  function CheckPairs(nums: seq<int>, qrs: seq<string>): (v: Verdict)
    requires |nums| == |qrs|
    ensures v.Rejected? ==> |v.errors| == 1
    ensures PairsRefusal(nums, qrs, v)
  {
    if qrs == [] then Rejected([NoQrCodes])
    else if |qrs| > FleetLimit then Rejected([TooMany(FleetLimit)])
    else if HasRepeat(nums) then Rejected([ScannersNotDistinct])
    else
      match FirstQrError(qrs)
      case Some(e) =>
        FirstQrErrorNone(qrs);
        Rejected([e])
      case None => Dispatched(ChunkRounds(Chunk4(ZipJobs(nums, qrs))))
  }

  /**
   * The error the colour console raises, in the order of its checks: no pairs, more than
   * eight, a repeated scanner, and otherwise the identifier loop's first error.
   */
  ghost predicate PairsRefusal(nums: seq<int>, qrs: seq<string>, v: Verdict)
  {
    && (qrs == [] ==> v == Rejected([NoQrCodes]))
    && (|qrs| > FleetLimit ==> v == Rejected([TooMany(FleetLimit)]))
    && (1 <= |qrs| <= FleetLimit && !Distinct(nums) ==> v == Rejected([ScannersNotDistinct]))
    && (1 <= |qrs| <= FleetLimit && Distinct(nums) && v.Rejected? ==>
          QrChecks(qrs) != [] && v.errors == [QrChecks(qrs)[0]])
  }

  /**
   * The error an eight-scanner console raises: no identifiers, more than eight, and
   * otherwise the identifier loop's first error.
   */
  ghost predicate UnifiedRefusal(qrs: seq<string>, v: Verdict)
  {
    && (qrs == [] ==> v == Rejected([NoQrCodes]))
    && (|qrs| > FleetLimit ==> v == Rejected([TooMany(FleetLimit)]))
    && (1 <= |qrs| <= FleetLimit && v.Rejected? ==> QrChecks(qrs) != [] && v.errors == [QrChecks(qrs)[0]])
  }

  /**
   * For as many scanner numbers as identifiers, the colour console's checks pass exactly
   * when there are one to eight pairs, no scanner repeats and the identifiers are
   * well-formed and distinct; the rounds are consecutive groups of at most four that
   * together launch every pair in input order.
   */
  lemma CheckPairsVerdict(nums: seq<int>, qrs: seq<string>)
    requires |nums| == |qrs|
    ensures CheckPairs(nums, qrs).Dispatched? <==>
      && 1 <= |qrs| <= FleetLimit
      && Distinct(nums)
      && (forall i | 0 <= i < |qrs| :: ValidQr(qrs[i]))
      && Distinct(qrs)
    ensures var v := CheckPairs(nums, qrs);
      v.Dispatched? ==>
        && Flatten(v.rounds) == ZipJobs(nums, qrs)
        && (forall k | 0 <= k < |v.rounds| :: 1 <= |v.rounds[k]| <= 4)
  {
    FirstQrErrorNone(qrs);
    var cs := Chunk4(ZipJobs(nums, qrs));
    LockstepChunks(nums, qrs);
    assert ChunkRounds(cs) == cs;
  }

  /**
   * The colour console launches exactly the lines whose tags are all colours, with one to
   * eight pairs, no repeated scanner, and well-formed distinct identifiers; the rounds are
   * consecutive groups of four that together launch every (scanner, identifier) pair in
   * input order, each on one of the fleet's addresses.
   */
  lemma ColorsConsoleVerdict(raw: string)
    ensures var p := ParseColorQrPairs(ColorToNum, raw);
      ColorsConsoleRun(raw).Dispatched? <==>
        && p.Ok?
        && 1 <= |p.value.1| <= FleetLimit
        && Distinct(p.value.0)
        && (forall i | 0 <= i < |p.value.1| :: ValidQr(p.value.1[i]))
        && Distinct(p.value.1)
    ensures var p := ParseColorQrPairs(ColorToNum, raw);
      var v := ColorsConsoleRun(raw);
      v.Dispatched? ==>
        && p.Ok?
        && Flatten(v.rounds) == ZipJobs(p.value.0, p.value.1)
        && (forall k | 0 <= k < |v.rounds| :: 1 <= |v.rounds[k]| <= 4)
        && (forall i | 0 <= i < |p.value.0| :: 1 <= p.value.0[i] <= 8)
  {
    var p := ParseColorQrPairs(ColorToNum, raw);
    if p.Ok? {
      ColorToNumInvertsFleet();
      CheckPairsVerdict(p.value.0, p.value.1);
    }
  }

  // ---------------------------------------------------------------------------
  // The eight-scanner console (parallelscan.py): legacy form, first error aborts, two rounds

  function UnifiedConsoleRun(raw: string): (v: Verdict)
    ensures v.Rejected? ==> |v.errors| == 1
    ensures UnifiedRefusal(LegacyQrs(raw), v)
  {
    CheckUnified(LegacyQrs(raw))
  }

  /** Emptiness and size end the pass, then the first bad identifier; up to eight go in two rounds. */
  function CheckUnified(qrs: seq<string>): (v: Verdict)
    ensures v.Rejected? ==> |v.errors| == 1
    ensures UnifiedRefusal(qrs, v)
  {
    if qrs == [] then Rejected([NoQrCodes])
    else if |qrs| > FleetLimit then Rejected([TooMany(FleetLimit)])
    else
      match FirstQrError(qrs)
      case Some(e) =>
        FirstQrErrorNone(qrs);
        Rejected([e])
      case None => Dispatched(SplitRounds(qrs))
  }

  /**
   * The eight-scanner console launches exactly the lines holding one to eight well-formed,
   * distinct identifiers; a second round runs only past four, and overall position `i` lands
   * on scanner `i + 1`, one of the fleet's addresses.
   */
  lemma UnifiedConsoleVerdict(raw: string)
    ensures var qrs := LegacyQrs(raw);
      UnifiedConsoleRun(raw).Dispatched? <==>
        1 <= |qrs| <= FleetLimit && (forall i | 0 <= i < |qrs| :: ValidQr(qrs[i])) && Distinct(qrs)
    ensures var qrs := LegacyQrs(raw);
      var v := UnifiedConsoleRun(raw);
      v.Dispatched? ==>
        && Flatten(v.rounds) == Positional(1, qrs)
        && |v.rounds| == (if |qrs| <= 4 then 1 else 2)
        && forall j | 0 <= j < |Flatten(v.rounds)| :: 1 <= Flatten(v.rounds)[j].scanner <= 8
  {
    CheckUnifiedVerdict(LegacyQrs(raw));
  }

  lemma CheckUnifiedVerdict(qrs: seq<string>)
    ensures CheckUnified(qrs).Dispatched? <==>
      1 <= |qrs| <= FleetLimit && (forall i | 0 <= i < |qrs| :: ValidQr(qrs[i])) && Distinct(qrs)
    ensures var v := CheckUnified(qrs);
      v.Dispatched? ==>
        && Flatten(v.rounds) == Positional(1, qrs)
        && |v.rounds| == (if |qrs| <= 4 then 1 else 2)
        && forall j | 0 <= j < |Flatten(v.rounds)| :: 1 <= Flatten(v.rounds)[j].scanner <= 8
  {
    FirstQrErrorNone(qrs);
    SplitRoundsArePositional(qrs);
  }

  // ---------------------------------------------------------------------------
  // The early test console (Legacy/fortesting/parallelscan.py): no identifier checks at all

  function TestConsoleRun(raw: string): (v: Verdict)
    ensures v.Rejected? ==> |v.errors| == 1
    ensures LegacyQrs(raw) == [] ==> v == Rejected([NoQrCodes])
    ensures |LegacyQrs(raw)| > FleetLimit ==> v == Rejected([TooMany(FleetLimit)])
  {
    var qrs := LegacyQrs(raw);
    if qrs == [] then Rejected([NoQrCodes])
    else if |qrs| > FleetLimit then Rejected([TooMany(FleetLimit)])
    else Dispatched([Positional(1, qrs)])
  }

  /**
   * The test console launches any line with one to eight identifiers, well-formed or not,
   * position `i` on scanner `i + 1`, always one of the fleet's addresses.
   */
  lemma TestConsoleVerdict(raw: string)
    ensures var qrs := LegacyQrs(raw);
      TestConsoleRun(raw).Dispatched? <==> 1 <= |qrs| <= FleetLimit
    ensures var qrs := LegacyQrs(raw);
      var v := TestConsoleRun(raw);
      v.Dispatched? ==>
        v.rounds == [Positional(1, qrs)] && forall j | 0 <= j < |qrs| :: 1 <= v.rounds[0][j].scanner <= 8
  {
  }

  // ---------------------------------------------------------------------------
  // From a launched round to the scanners: each console's deployment and output layout

  /** Every slot in `lo..hi` has an address and, outside the flat layout, a colour. */
  ghost predicate SlotsKnown(d: Deployment, layout: Layout, lo: int, hi: int)
  {
    forall n | lo <= n <= hi :: n in d.ips && (layout != Flat ==> n in d.colors)
  }

  /** A round whose scanners all lie in known slots never fails for an unknown slot. */
  lemma RoundReachesScanners(d: Deployment, layout: Layout, dest: Path, round: seq<Job>, remote: Remote, lo: int, hi: int)
    requires SlotsKnown(d, layout, lo, hi)
    requires forall j | 0 <= j < |round| :: lo <= round[j].scanner <= hi
    ensures forall j | 0 <= j < |round| :: !RunScan(d, layout, dest, round[j], remote).outcome.UnknownScanner?
  {
    forall j | 0 <= j < |round|
      ensures Known(d, layout, round[j])
    {
      assert lo <= round[j].scanner <= hi;
    }
  }

  /** The first round of a launch whose scanners all lie in known slots never meets an unknown slot. */
  lemma FirstRoundReachesScanners(d: Deployment, layout: Layout, dest: Path, v: Verdict, remote: Remote, lo: int, hi: int)
    requires SlotsKnown(d, layout, lo, hi)
    requires v.Dispatched? ==> v.rounds != []
    requires v.Dispatched? ==> forall j | 0 <= j < |v.rounds[0]| :: lo <= v.rounds[0][j].scanner <= hi
    ensures v.Dispatched? ==> forall j | 0 <= j < |v.rounds[0]| ::
      !RunScan(d, layout, dest, v.rounds[0][j], remote).outcome.UnknownScanner?
  {
    if v.Dispatched? {
      RoundReachesScanners(d, layout, dest, v.rounds[0], remote, lo, hi);
    }
  }

  /** Which slots each deployment knows, in the layouts it is used with. */
  lemma DeploymentsKnowTheirSlots()
    ensures SlotsKnown(Batch1, NestedColorFolder, 1, 4)
    ensures SlotsKnown(Batch2, ColorFolder, 5, 8) && SlotsKnown(Batch2, NestedColorFolder, 5, 8)
    ensures SlotsKnown(Fleet, ColorFolder, 1, 8) && SlotsKnown(Fleet, NestedColorFolder, 1, 8)
    ensures SlotsKnown(FleetAddressesOnly, Flat, 1, 8)
  {
    FleetColorsKeys();
    forall n | 1 <= n <= 8
      ensures (n <= 4 ==> n in Batch1Ips && n in Batch1Colors)
      ensures (5 <= n ==> n in Batch2Ips && n in Batch2Colors)
      ensures n in FleetIps
    {
      SlotRanges(n);
    }
  }

  /**
   * Every job the Batch 1 console launches reaches a scanner `run_scan` can look up in its
   * `VM_IPS` and `VM_Colors`, so the job never fails for an unknown slot.
   */
  lemma Save1ReachesScanners(raw: string, dest: Path, remote: Remote)
    ensures var v := BatchConsoleRun(Save1, raw);
      v.Dispatched? ==> forall j | 0 <= j < |v.rounds[0]| ::
        !RunScan(Batch1, NestedColorFolder, dest, v.rounds[0][j], remote).outcome.UnknownScanner?
  {
    Save1Slots(raw);
    DeploymentsKnowTheirSlots();
    FirstRoundReachesScanners(Batch1, NestedColorFolder, dest, BatchConsoleRun(Save1, raw), remote, 1, 4);
  }

  /** The same for the Batch 2 console, whose files land in `scanner_folder / name`. */
  lemma Save2ReachesScanners(raw: string, dest: Path, remote: Remote)
    ensures var v := BatchConsoleRun(Save2, raw);
      v.Dispatched? ==> forall j | 0 <= j < |v.rounds[0]| ::
        !RunScan(Batch2, ColorFolder, dest, v.rounds[0][j], remote).outcome.UnknownScanner?
  {
    Save2Slots(raw);
    DeploymentsKnowTheirSlots();
    FirstRoundReachesScanners(Batch2, ColorFolder, dest, BatchConsoleRun(Save2, raw), remote, 5, 8);
  }

  /** The same for the legacy Batch 2 console, on the Batch 2 tables. */
  lemma Batch2LegacyReachesScanners(raw: string, dest: Path, remote: Remote)
    ensures var v := Batch2LegacyRun(raw);
      v.Dispatched? ==> forall j | 0 <= j < |v.rounds[0]| ::
        !RunScan(Batch2, NestedColorFolder, dest, v.rounds[0][j], remote).outcome.UnknownScanner?
  {
    Batch2LegacyVerdict(raw);
    DeploymentsKnowTheirSlots();
    var v := Batch2LegacyRun(raw);
    if v.Dispatched? {
      RoundReachesScanners(Batch2, NestedColorFolder, dest, v.rounds[0], remote, 5, 8);
    }
  }

  /** Every job of every round of the colour console reaches one of the fleet's scanners. */
  lemma ColorsReachesScanners(raw: string, dest: Path, remote: Remote)
    ensures var v := ColorsConsoleRun(raw);
      v.Dispatched? ==> forall j | 0 <= j < |Flatten(v.rounds)| ::
        !RunScan(Fleet, ColorFolder, dest, Flatten(v.rounds)[j], remote).outcome.UnknownScanner?
  {
    ColorsConsoleVerdict(raw);
    DeploymentsKnowTheirSlots();
    var v := ColorsConsoleRun(raw);
    if v.Dispatched? {
      var p := ParseColorQrPairs(ColorToNum, raw);
      var jobs := Flatten(v.rounds);
      assert jobs == ZipJobs(p.value.0, p.value.1);
      forall j | 0 <= j < |jobs|
        ensures 1 <= jobs[j].scanner <= 8
      {
        assert jobs[j].scanner == ScannersOf(jobs)[j] == p.value.0[j];
      }
      RoundReachesScanners(Fleet, ColorFolder, dest, jobs, remote, 1, 8);
    }
  }

  /** Every job of both rounds of the eight-scanner console reaches one of the fleet's scanners. */
  lemma UnifiedReachesScanners(raw: string, dest: Path, remote: Remote)
    ensures var v := UnifiedConsoleRun(raw);
      v.Dispatched? ==> forall j | 0 <= j < |Flatten(v.rounds)| ::
        !RunScan(Fleet, NestedColorFolder, dest, Flatten(v.rounds)[j], remote).outcome.UnknownScanner?
  {
    UnifiedConsoleVerdict(raw);
    DeploymentsKnowTheirSlots();
    var v := UnifiedConsoleRun(raw);
    if v.Dispatched? {
      RoundReachesScanners(Fleet, NestedColorFolder, dest, Flatten(v.rounds), remote, 1, 8);
    }
  }

  /** Every job of the test console reaches an address; its flat layout needs no colour. */
  lemma TestReachesScanners(raw: string, dest: Path, remote: Remote)
    ensures var v := TestConsoleRun(raw);
      v.Dispatched? ==> forall j | 0 <= j < |v.rounds[0]| ::
        !RunScan(FleetAddressesOnly, Flat, dest, v.rounds[0][j], remote).outcome.UnknownScanner?
  {
    TestConsoleVerdict(raw);
    DeploymentsKnowTheirSlots();
    var v := TestConsoleRun(raw);
    if v.Dispatched? {
      RoundReachesScanners(FleetAddressesOnly, Flat, dest, v.rounds[0], remote, 1, 8);
    }
  }
}
