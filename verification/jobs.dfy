/** The unit of work and the ways a batch is refused before anything is dispatched. */
module Jobs {

  /** One scan: the scanner slot it goes to and the identifier it is tagged with. */
  datatype Job = Job(scanner: int, qr: string)

  /** Every reason a batch is refused, named after the condition the consoles report. */
  datatype BatchError =
    | LegacyModeDisabled                 // no colour pair, and the variant refuses the legacy form
    | UnknownColor(color: string)        // a tag that is not a colour of the table
    | ColorCountMismatch                 // colour and identifier lists of different lengths
    | DuplicateScanner(scanner: int)     // a second job for the same scanner
    | ScannersNotDistinct                // some scanner number occurs twice in the parsed list
    | NoColorEntries                     // colour-only console given no colour pair
    | NoQrCodes                          // nothing to scan
    | TooMany(limit: nat)                // more identifiers than the batch allows
    | DuplicateQr(position: nat)         // 1-based position of a repeated identifier
    | MalformedQr(position: nat)         // 1-based position of an ill-formed identifier

  /** The identifiers of a job list (`Job` records), in order. */
  function QrsOf(jobs: seq<Job>): (qrs: seq<string>)
    ensures |qrs| == |jobs|
    ensures forall i | 0 <= i < |jobs| :: qrs[i] == jobs[i].qr
  {
    seq(|jobs|, i requires 0 <= i < |jobs| => jobs[i].qr)
  }

  /** The scanners of a job list, in order. */
  function ScannersOf(jobs: seq<Job>): (ns: seq<int>)
    ensures |ns| == |jobs|
    ensures forall i | 0 <= i < |jobs| :: ns[i] == jobs[i].scanner
  {
    seq(|jobs|, i requires 0 <= i < |jobs| => jobs[i].scanner)
  }

  ghost predicate Distinct<T>(s: seq<T>)
  {
    forall i, j | 0 <= i < j < |s| :: s[i] != s[j]
  }
}
