/**
 * The checks a parsed batch goes through before anything is dispatched: the identifier
 * checks (repeats, reported by 1-based position, and ill-formed identifiers), and the
 * colour-to-scanner job construction of the colour-tagged consoles.
 */
module Validator {
  import opened Wrappers
  import opened Jobs
  import opened QrFormat

  // ---------------------------------------------------------------------------
  // Identifier checks

  /**
   * The loop over `enumerate(qr_codes, start=1)` of the accumulating consoles: a repeat of an
   * identifier already in `seen` is reported first, then an ill-formed one; only a well-formed
   * identifier is added to `seen`, and every position is visited.
   */
  function QrChecksFrom(qrs: seq<string>, i: nat, seen: set<string>): (errs: seq<BatchError>)
    requires i <= |qrs|
    ensures |errs| <= |qrs| - i
    decreases |qrs| - i
  {
    if i == |qrs| then []
    else if qrs[i] in seen then [DuplicateQr(i + 1)] + QrChecksFrom(qrs, i + 1, seen)
    else if !ValidQr(qrs[i]) then [MalformedQr(i + 1)] + QrChecksFrom(qrs, i + 1, seen)
    else QrChecksFrom(qrs, i + 1, seen + {qrs[i]})
  }

  /** Every error the accumulating consoles print for the identifiers, in position order. */
  function QrChecks(qrs: seq<string>): seq<BatchError>
  {
    QrChecksFrom(qrs, 0, {})
  }

  /**
   * The loop of the consoles that raise on the first violation: the same two checks, in the
   * same order, but the first one that fires ends the run.
   */
  function FirstQrErrorFrom(qrs: seq<string>, i: nat, seen: set<string>): (r: Option<BatchError>)
    requires i <= |qrs|
    ensures r.Some? ==> r.value.DuplicateQr? || r.value.MalformedQr?
    decreases |qrs| - i
  {
    if i == |qrs| then None
    else if qrs[i] in seen then Some(DuplicateQr(i + 1))
    else if !ValidQr(qrs[i]) then Some(MalformedQr(i + 1))
    else FirstQrErrorFrom(qrs, i + 1, seen + {qrs[i]})
  }

  function FirstQrError(qrs: seq<string>): Option<BatchError>
  {
    FirstQrErrorFrom(qrs, 0, {})
  }

  // ---------------------------------------------------------------------------
  // A position-by-position reference for the identifier checks

  /** The well-formed identifiers before position `i`: what the loop's `seen` holds there. */
  ghost function ValidBefore(qrs: seq<string>, i: nat): set<string>
    requires i <= |qrs|
  {
    set j | 0 <= j < i && ValidQr(qrs[j]) :: qrs[j]
  }

  /**
   * What is wrong at position `i` (0-based), judged on its own: ill-formed, or a repeat of
   * an earlier identifier.
   */
  function PositionError(qrs: seq<string>, i: nat): Option<BatchError>
    requires i < |qrs|
  {
    if !ValidQr(qrs[i]) then Some(MalformedQr(i + 1))
    else if qrs[i] in qrs[..i] then Some(DuplicateQr(i + 1))
    else None
  }

  function PositionErrors(qrs: seq<string>, i: nat): seq<BatchError>
    requires i <= |qrs|
    decreases |qrs| - i
  {
    if i == |qrs| then []
    else
      (match PositionError(qrs, i) case Some(e) => [e] case None => []) + PositionErrors(qrs, i + 1)
  }

  /** A repeat of an earlier identifier is in `seen` exactly when it is also well-formed. */
  lemma ValidBeforeStep(qrs: seq<string>, i: nat)
    requires i < |qrs|
    ensures qrs[i] in ValidBefore(qrs, i) <==> ValidQr(qrs[i]) && qrs[i] in qrs[..i]
    ensures ValidBefore(qrs, i + 1)
         == if ValidQr(qrs[i]) then ValidBefore(qrs, i) + {qrs[i]} else ValidBefore(qrs, i)
  {
    if ValidQr(qrs[i]) && qrs[i] in qrs[..i] {
      var j :| 0 <= j < i && qrs[..i][j] == qrs[i];
      assert qrs[j] == qrs[i];
    }
  }

  /**
   * The accumulating loop reports exactly the position-by-position errors: a malformed
   * identifier is never added to `seen`, so it cannot make a later copy of itself a repeat.
   */
  lemma {:induction false} QrChecksFromIsReference(qrs: seq<string>, i: nat, seen: set<string>)
    requires i <= |qrs|
    requires seen == ValidBefore(qrs, i)
    ensures QrChecksFrom(qrs, i, seen) == PositionErrors(qrs, i)
    decreases |qrs| - i
  {
    if i < |qrs| {
      ValidBeforeStep(qrs, i);
      if qrs[i] in seen {
        QrChecksFromIsReference(qrs, i + 1, seen);
      } else if !ValidQr(qrs[i]) {
        QrChecksFromIsReference(qrs, i + 1, seen);
      } else {
        QrChecksFromIsReference(qrs, i + 1, seen + {qrs[i]});
      }
    }
  }

  lemma QrChecksIsReference(qrs: seq<string>)
    ensures QrChecks(qrs) == PositionErrors(qrs, 0)
  {
    assert ValidBefore(qrs, 0) == {};
    QrChecksFromIsReference(qrs, 0, {});
  }

  /** An error is reported from position `i` on iff some position there has it. */
  lemma {:induction false} PositionErrorsMembers(qrs: seq<string>, i: nat, e: BatchError)
    requires i <= |qrs|
    ensures e in PositionErrors(qrs, i) <==> exists j | i <= j < |qrs| :: PositionError(qrs, j) == Some(e)
    decreases |qrs| - i
  {
    if i < |qrs| {
      PositionErrorsMembers(qrs, i + 1, e);
      var tail := PositionErrors(qrs, i + 1);
      var head: seq<BatchError> := if PositionError(qrs, i).Some? then [PositionError(qrs, i).value] else [];
      assert PositionErrors(qrs, i) == head + tail;
      assert e in head <==> PositionError(qrs, i) == Some(e);
      if e in PositionErrors(qrs, i) {
        if e !in head {
          var j :| i + 1 <= j < |qrs| && PositionError(qrs, j) == Some(e);
        }
      }
      if exists j | i <= j < |qrs| :: PositionError(qrs, j) == Some(e) {
        var j :| i <= j < |qrs| && PositionError(qrs, j) == Some(e);
        if j > i {
          assert e in tail;
        }
      }
    }
  }

  /**
   * Every position is visited: a malformed identifier is reported at its 1-based position,
   * and so is a well-formed one that repeats an earlier identifier, and nothing else is.
   */
  lemma QrChecksReportsEveryPosition(qrs: seq<string>, k: nat)
    ensures MalformedQr(k) in QrChecks(qrs) <==> 1 <= k <= |qrs| && !ValidQr(qrs[k - 1])
    ensures DuplicateQr(k) in QrChecks(qrs)
        <==> 1 <= k <= |qrs| && ValidQr(qrs[k - 1]) && qrs[k - 1] in qrs[..k - 1]
  {
    QrChecksIsReference(qrs);
    PositionErrorsMembers(qrs, 0, MalformedQr(k));
    PositionErrorsMembers(qrs, 0, DuplicateQr(k));
    PositionErrorAt(qrs, k);
  }

  /** Only position `k - 1` can carry an error numbered `k`, and which one it carries. */
  lemma PositionErrorAt(qrs: seq<string>, k: nat)
    ensures (exists j | 0 <= j < |qrs| :: PositionError(qrs, j) == Some(MalformedQr(k)))
        <==> 1 <= k <= |qrs| && !ValidQr(qrs[k - 1])
    ensures (exists j | 0 <= j < |qrs| :: PositionError(qrs, j) == Some(DuplicateQr(k)))
        <==> 1 <= k <= |qrs| && ValidQr(qrs[k - 1]) && qrs[k - 1] in qrs[..k - 1]
  {
    if 1 <= k <= |qrs| {
      var e := PositionError(qrs, k - 1);
      assert e == Some(MalformedQr(k)) <==> !ValidQr(qrs[k - 1]);
      assert e == Some(DuplicateQr(k)) <==> ValidQr(qrs[k - 1]) && qrs[k - 1] in qrs[..k - 1];
    }
  }

  lemma {:induction false} PositionErrorsEmpty(qrs: seq<string>, i: nat)
    requires i <= |qrs|
    ensures PositionErrors(qrs, i) == [] <==> forall j | i <= j < |qrs| :: PositionError(qrs, j) == None
    decreases |qrs| - i
  {
    if i < |qrs| {
      PositionErrorsEmpty(qrs, i + 1);
      var tail := PositionErrors(qrs, i + 1);
      var head: seq<BatchError> := if PositionError(qrs, i).Some? then [PositionError(qrs, i).value] else [];
      assert PositionErrors(qrs, i) == head + tail;
      assert head + tail == [] <==> head == [] && tail == [];
      assert (forall j | i <= j < |qrs| :: PositionError(qrs, j) == None)
        <==> PositionError(qrs, i) == None && forall j | i + 1 <= j < |qrs| :: PositionError(qrs, j) == None;
    }
  }

  /** No earlier copy at any position is the same as no two equal positions. */
  lemma NoEarlierCopyIsDistinct(qrs: seq<string>)
    ensures (forall j | 0 <= j < |qrs| :: qrs[j] !in qrs[..j]) <==> Distinct(qrs)
  {
    if forall j | 0 <= j < |qrs| :: qrs[j] !in qrs[..j] {
      forall i, j | 0 <= i < j < |qrs|
        ensures qrs[i] != qrs[j]
      {
        assert qrs[..j][i] == qrs[i];
      }
    }
    if Distinct(qrs) {
      forall j | 0 <= j < |qrs|
        ensures qrs[j] !in qrs[..j]
      {
        assert forall k | 0 <= k < j :: qrs[..j][k] == qrs[k];
      }
    }
  }

  /** No error at all exactly when every identifier is well-formed and none repeats. */
  lemma QrChecksEmpty(qrs: seq<string>)
    ensures QrChecks(qrs) == [] <==> (forall i | 0 <= i < |qrs| :: ValidQr(qrs[i])) && Distinct(qrs)
  {
    QrChecksIsReference(qrs);
    PositionErrorsEmpty(qrs, 0);
    NoEarlierCopyIsDistinct(qrs);
    forall j | 0 <= j < |qrs|
      ensures PositionError(qrs, j) == None <==> ValidQr(qrs[j]) && qrs[j] !in qrs[..j]
    {
    }
  }

  /** The raising consoles stop at the first error the accumulating ones would print. */
  lemma {:induction false} FirstQrErrorFromIsHead(qrs: seq<string>, i: nat, seen: set<string>)
    requires i <= |qrs|
    ensures var errs := QrChecksFrom(qrs, i, seen);
      FirstQrErrorFrom(qrs, i, seen) == if errs == [] then None else Some(errs[0])
    decreases |qrs| - i
  {
    if i < |qrs| && qrs[i] !in seen && ValidQr(qrs[i]) {
      FirstQrErrorFromIsHead(qrs, i + 1, seen + {qrs[i]});
    }
  }

  /** The raising consoles accept exactly the identifier lists the accumulating ones accept. */
  lemma FirstQrErrorNone(qrs: seq<string>)
    ensures FirstQrError(qrs) == None <==> (forall i | 0 <= i < |qrs| :: ValidQr(qrs[i])) && Distinct(qrs)
    ensures FirstQrError(qrs) != None ==> QrChecks(qrs) != [] && FirstQrError(qrs) == Some(QrChecks(qrs)[0])
  {
    FirstQrErrorFromIsHead(qrs, 0, {});
    QrChecksEmpty(qrs);
  }

  // ---------------------------------------------------------------------------
  // Colour-tagged job construction

  /** The jobs built so far, and the error that stopped the loop, if any. */
  datatype Built = Built(jobs: seq<Job>, error: Option<BatchError>)

  /**
   * The loop over `zip(scanned_colors, qr_codes)`: each colour is looked up in
   * `COLOR_TO_SCANNER_NUM`; an unknown colour or a scanner already in `used` sets the error
   * and breaks, so the jobs built before it are kept and nothing after it is looked at.
   */
  function BuildFrom(table: map<string, int>, colors: seq<string>, qrs: seq<string>, used: set<int>)
    : (r: Built)
    ensures |r.jobs| <= |colors| && |r.jobs| <= |qrs|
    ensures forall k | 0 <= k < |r.jobs| ::
      colors[k] in table && r.jobs[k] == Job(table[colors[k]], qrs[k])
    ensures r.error.None? ==> |r.jobs| == |colors| || |r.jobs| == |qrs|
    ensures r.error.Some? ==> r.error.value.UnknownColor? || r.error.value.DuplicateScanner?
  {
    if colors == [] || qrs == [] then Built([], None)
    else if colors[0] !in table then Built([], Some(UnknownColor(colors[0])))
    else
      var n := table[colors[0]];
      if n in used then Built([], Some(DuplicateScanner(n)))
      else
        var rest := BuildFrom(table, colors[1..], qrs[1..], used + {n});
        Built([Job(n, qrs[0])] + rest.jobs, rest.error)
  }

  /** The loop never hands out a scanner twice, nor one that was already in use. */
  lemma BuildFromFresh(table: map<string, int>, colors: seq<string>, qrs: seq<string>, used: set<int>)
    ensures var r := BuildFrom(table, colors, qrs, used);
      && (forall k | 0 <= k < |r.jobs| :: r.jobs[k].scanner !in used)
      && Distinct(ScannersOf(r.jobs))
  {
    var jobs := BuildFrom(table, colors, qrs, used).jobs;
    BuildFromScanners(table, colors, qrs, used);
    assert FreshScanners(jobs, used);
    var ns := ScannersOf(jobs);
    assert forall j, k | 0 <= j < k < |ns| :: ns[j] == jobs[j].scanner && ns[k] == jobs[k].scanner;
  }

  /** No job's scanner is in `used`, and no two jobs share a scanner. */
  ghost predicate FreshScanners(jobs: seq<Job>, used: set<int>)
  {
    && (forall k | 0 <= k < |jobs| :: jobs[k].scanner !in used)
    && (forall j, k | 0 <= j < k < |jobs| :: jobs[j].scanner != jobs[k].scanner)
  }

  lemma {:induction false} BuildFromScanners(table: map<string, int>, colors: seq<string>, qrs: seq<string>, used: set<int>)
    ensures FreshScanners(BuildFrom(table, colors, qrs, used).jobs, used)
  {
    if colors != [] && qrs != [] && colors[0] in table && table[colors[0]] !in used {
      var n := table[colors[0]];
      BuildFromScanners(table, colors[1..], qrs[1..], used + {n});
      var rest := BuildFrom(table, colors[1..], qrs[1..], used + {n}).jobs;
      var jobs := BuildFrom(table, colors, qrs, used).jobs;
      assert jobs == [Job(n, qrs[0])] + rest;
      assert FreshScanners(rest, used + {n});
      forall k | 0 <= k < |jobs|
        ensures jobs[k].scanner !in used
      {
        if k > 0 {
          assert jobs[k] == rest[k - 1];
        }
      }
      forall j, k | 0 <= j < k < |jobs|
        ensures jobs[j].scanner != jobs[k].scanner
      {
        assert jobs[k] == rest[k - 1];
        if j > 0 {
          assert jobs[j] == rest[j - 1];
        }
      }
    }
  }

  function BuildColorJobs(table: map<string, int>, colors: seq<string>, qrs: seq<string>): Built
  {
    BuildFrom(table, colors, qrs, {})
  }

  /**
   * The condition under which the loop runs to the end: every colour is in the table and
   * its scanner is neither in `used` nor the scanner of an earlier colour.
   */
  ghost predicate Assignable(table: map<string, int>, colors: seq<string>, used: set<int>)
  {
    && (forall k | 0 <= k < |colors| :: colors[k] in table && table[colors[k]] !in used)
    && (forall j, k | 0 <= j < k < |colors| :: table[colors[j]] != table[colors[k]])
  }

  lemma {:induction false} BuildFromSucceeds(table: map<string, int>, colors: seq<string>, qrs: seq<string>, used: set<int>)
    requires |colors| == |qrs|
    ensures BuildFrom(table, colors, qrs, used).error.None? <==> Assignable(table, colors, used)
  {
    if colors != [] && colors[0] in table && table[colors[0]] !in used {
      var n := table[colors[0]];
      BuildFromSucceeds(table, colors[1..], qrs[1..], used + {n});
      if Assignable(table, colors[1..], used + {n}) {
        forall j, k | 0 <= j < k < |colors|
          ensures table[colors[j]] != table[colors[k]]
        {
          assert colors[k] == colors[1..][k - 1];
          if j > 0 {
            assert colors[j] == colors[1..][j - 1];
          }
        }
      }
      if Assignable(table, colors, used) {
        forall k | 0 <= k < |colors[1..]|
          ensures colors[1..][k] in table && table[colors[1..][k]] !in used + {n}
        {
          assert colors[1..][k] == colors[k + 1];
        }
        forall j, k | 0 <= j < k < |colors[1..]|
          ensures table[colors[1..][j]] != table[colors[1..][k]]
        {
          assert colors[1..][j] == colors[j + 1] && colors[1..][k] == colors[k + 1];
        }
      }
    }
  }

  /**
   * The colour loop stops without error exactly when every colour is in the table and no two
   * colours name the same scanner; then it has built one job per colour, in input order.
   */
  lemma BuildColorJobsSucceeds(table: map<string, int>, colors: seq<string>, qrs: seq<string>)
    requires |colors| == |qrs|
    ensures BuildColorJobs(table, colors, qrs).error.None?
        <==> ((forall k | 0 <= k < |colors| :: colors[k] in table)
             && (forall j, k | 0 <= j < k < |colors| :: table[colors[j]] != table[colors[k]]))
    ensures BuildColorJobs(table, colors, qrs).error.None? ==>
      QrsOf(BuildColorJobs(table, colors, qrs).jobs) == qrs
  {
    BuildFromSucceeds(table, colors, qrs, {});
  }
}
