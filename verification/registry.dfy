/**
 * The static scanner tables: slot number → VM address, slot number → colour label, and the
 * colour lookups the parsers use. Each deployment variant carries its own subset.
 */
module Registry {
  import opened Text

  /** What a variant knows about its scanners: `VM_IPS` and `VM_Colors`. */
  datatype Deployment = Deployment(ips: map<int, string>, colors: map<int, string>)

  // ---------------------------------------------------------------------------
  // Batch 1: scanners 1..4

  const Batch1Ips: map<int, string> :=
    map[1 := "192.168.122.101", 2 := "192.168.122.102", 3 := "192.168.122.103", 4 := "192.168.122.104"]

  const Batch1Colors: map<int, string> :=
    map[1 := "Blue", 2 := "Orange", 3 := "Gray", 4 := "Green"]

  /** `COLOR_CANON`: upper-case spelling → canonical label. */
  const Batch1Canon: map<string, string> :=
    map["BLUE" := "Blue", "ORANGE" := "Orange", "GRAY" := "Gray", "GREEN" := "Green"]

  /** `COLOR_TO_SCANNER_NUM`. */
  const Batch1ColorToScanner: map<string, int> :=
    map["Blue" := 1, "Orange" := 2, "Gray" := 3, "Green" := 4]

  /** The alternatives of the colour pattern, in the order the pattern lists them. */
  const Batch1Keywords: seq<string> := ["BLUE", "ORANGE", "GRAY", "GREEN"]

  // ---------------------------------------------------------------------------
  // Batch 2: scanners 5..8

  const Batch2Ips: map<int, string> :=
    map[5 := "192.168.122.105", 6 := "192.168.122.106", 7 := "192.168.122.107", 8 := "192.168.122.108"]

  const Batch2Colors: map<int, string> :=
    map[5 := "White", 6 := "Black", 7 := "Yellow", 8 := "Crimson"]

  const Batch2Canon: map<string, string> :=
    map["WHITE" := "White", "BLACK" := "Black", "YELLOW" := "Yellow", "CRIMSON" := "Crimson"]

  const Batch2ColorToScanner: map<string, int> :=
    map["White" := 5, "Black" := 6, "Yellow" := 7, "Crimson" := 8]

  const Batch2Keywords: seq<string> := ["WHITE", "BLACK", "YELLOW", "CRIMSON"]

  // ---------------------------------------------------------------------------
  // The whole fleet: scanners 1..8

  const FleetIps: map<int, string> :=
    map[1 := "192.168.122.101", 2 := "192.168.122.102", 3 := "192.168.122.103", 4 := "192.168.122.104",
        5 := "192.168.122.105", 6 := "192.168.122.106", 7 := "192.168.122.107", 8 := "192.168.122.108"]

  /** `VM_Colors` of the eight-scanner variants, as the ordered items of the dict literal. */
  const FleetEntries: seq<(int, string)> :=
    [(1, "Blue"), (2, "Orange"), (3, "Gray"), (4, "Green"),
     (5, "White"), (6, "Black"), (7, "Yellow"), (8, "Crimson")]

  /** A dict built from ordered items: a later item overrides an earlier one with the same key. */
  function ToMap(es: seq<(int, string)>): (m: map<int, string>)
    ensures m.Keys == set i | 0 <= i < |es| :: es[i].0
  {
    if es == [] then map[] else ToMap(es[..|es| - 1])[es[|es| - 1].0 := es[|es| - 1].1]
  }

  const FleetColors: map<int, string> := ToMap(FleetEntries)

  /** `{v.upper(): k for k, v in VM_Colors.items()}`, items visited in order. */
  function InvertUpper(es: seq<(int, string)>): (m: map<string, int>)
    ensures m.Keys == set i | 0 <= i < |es| :: Upper(es[i].1)
  {
    if es == [] then map[]
    else InvertUpper(es[..|es| - 1])[Upper(es[|es| - 1].1) := es[|es| - 1].0]
  }

  /** `COLOR_TO_NUM`. */
  const ColorToNum: map<string, int> := InvertUpper(FleetEntries)

  const Batch1: Deployment := Deployment(Batch1Ips, Batch1Colors)
  const Batch2: Deployment := Deployment(Batch2Ips, Batch2Colors)
  const Fleet: Deployment := Deployment(FleetIps, FleetColors)
  /** The early test variant has addresses only; its local layout has no colour folders. */
  const FleetAddressesOnly: Deployment := Deployment(FleetIps, map[])

  // ---------------------------------------------------------------------------
  // Inverting the colour table

  ghost predicate DistinctSlots(es: seq<(int, string)>)
  {
    forall i, j | 0 <= i < j < |es| :: es[i].0 != es[j].0
  }

  ghost predicate DistinctUpperLabels(es: seq<(int, string)>)
  {
    forall i, j | 0 <= i < j < |es| :: Upper(es[i].1) != Upper(es[j].1)
  }

  lemma {:induction false} ToMapAt(es: seq<(int, string)>, i: nat)
    requires DistinctSlots(es)
    requires i < |es|
    ensures ToMap(es)[es[i].0] == es[i].1
    decreases |es|
  {
    if i < |es| - 1 {
      ToMapAt(es[..|es| - 1], i);
    }
  }

  lemma {:induction false} InvertUpperAt(es: seq<(int, string)>, i: nat)
    requires DistinctUpperLabels(es)
    requires i < |es|
    ensures InvertUpper(es)[Upper(es[i].1)] == es[i].0
    decreases |es|
  {
    if i < |es| - 1 {
      InvertUpperAt(es[..|es| - 1], i);
    }
  }

  /**
   * With distinct slots and distinct upper-cased labels, the inverted table sends every
   * label, upper-cased, back to its slot, and only upper-cased labels are keys.
   */
  lemma InvertUpperRoundTrip(es: seq<(int, string)>)
    requires DistinctSlots(es) && DistinctUpperLabels(es)
    ensures forall n | n in ToMap(es) ::
      Upper(ToMap(es)[n]) in InvertUpper(es) && InvertUpper(es)[Upper(ToMap(es)[n])] == n
    ensures forall k | k in InvertUpper(es) ::
      InvertUpper(es)[k] in ToMap(es) && Upper(ToMap(es)[InvertUpper(es)[k]]) == k
  {
    forall n | n in ToMap(es)
      ensures Upper(ToMap(es)[n]) in InvertUpper(es) && InvertUpper(es)[Upper(ToMap(es)[n])] == n
    {
      var i :| 0 <= i < |es| && es[i].0 == n;
      ToMapAt(es, i);
      InvertUpperAt(es, i);
    }
    forall k | k in InvertUpper(es)
      ensures InvertUpper(es)[k] in ToMap(es) && Upper(ToMap(es)[InvertUpper(es)[k]]) == k
    {
      var i :| 0 <= i < |es| && Upper(es[i].1) == k;
      ToMapAt(es, i);
      InvertUpperAt(es, i);
    }
  }

  /** Upper-casing keeps the length and upper-cases the first letter. */
  lemma UpperSignature(a: string, b: string)
    requires Upper(a) == Upper(b) && a != []
    ensures |a| == |b| && UpperChar(a[0]) == UpperChar(b[0])
  {
    assert |Upper(a)| == |Upper(b)|;
    assert Upper(a)[0] == Upper(b)[0];
  }

  lemma FleetEntriesDistinct()
    ensures DistinctSlots(FleetEntries)
    ensures DistinctUpperLabels(FleetEntries)
  {
    var es := FleetEntries;
    forall i, j | 0 <= i < j < |es|
      ensures Upper(es[i].1) != Upper(es[j].1)
    {
      if Upper(es[i].1) == Upper(es[j].1) {
        UpperSignature(es[i].1, es[j].1);
      }
    }
  }

  lemma FleetColorsKeys()
    ensures forall n :: n in FleetColors <==> 1 <= n <= 8
  {
    forall n | 1 <= n <= 8
      ensures n in FleetColors
    {
      assert FleetEntries[n - 1].0 == n;
    }
    forall n | n in FleetColors
      ensures 1 <= n <= 8
    {
      var i :| 0 <= i < |FleetEntries| && FleetEntries[i].0 == n;
    }
  }

  /** `COLOR_TO_NUM[VM_Colors[n].upper()] == n` for every scanner, and nothing else is a key. */
  lemma ColorToNumInvertsFleet()
    ensures forall n | n in FleetColors ::
      Upper(FleetColors[n]) in ColorToNum && ColorToNum[Upper(FleetColors[n])] == n
    ensures forall k | k in ColorToNum ::
      ColorToNum[k] in FleetColors && Upper(FleetColors[ColorToNum[k]]) == k
    ensures forall k | k in ColorToNum :: 1 <= ColorToNum[k] <= 8
  {
    FleetEntriesDistinct();
    InvertUpperRoundTrip(FleetEntries);
    FleetColorsKeys();
  }

  // ---------------------------------------------------------------------------
  // The per-batch colour tables agree with each other

  /**
   * Every upper-case spelling canonicalises to a label whose scanner is one of the batch's
   * slots, and `VM_Colors` names that slot with the same label.
   */
  lemma Batch1TablesAgree()
    ensures (set w | w in Batch1Keywords) == Batch1Canon.Keys
    ensures forall w | w in Batch1Canon ::
      && Batch1Canon[w] in Batch1ColorToScanner
      && Batch1ColorToScanner[Batch1Canon[w]] in Batch1Colors
      && Batch1ColorToScanner[Batch1Canon[w]] in Batch1Ips
      && 1 <= Batch1ColorToScanner[Batch1Canon[w]] <= 4
      && Batch1Colors[Batch1ColorToScanner[Batch1Canon[w]]] == Batch1Canon[w]
    ensures forall a, b | a in Batch1ColorToScanner && b in Batch1ColorToScanner && a != b ::
      Batch1ColorToScanner[a] != Batch1ColorToScanner[b]
  {
  }

  lemma Batch2TablesAgree()
    ensures (set w | w in Batch2Keywords) == Batch2Canon.Keys
    ensures forall w | w in Batch2Canon ::
      && Batch2Canon[w] in Batch2ColorToScanner
      && Batch2ColorToScanner[Batch2Canon[w]] in Batch2Colors
      && Batch2ColorToScanner[Batch2Canon[w]] in Batch2Ips
      && 5 <= Batch2ColorToScanner[Batch2Canon[w]] <= 8
      && Batch2Colors[Batch2ColorToScanner[Batch2Canon[w]]] == Batch2Canon[w]
    ensures forall a, b | a in Batch2ColorToScanner && b in Batch2ColorToScanner && a != b ::
      Batch2ColorToScanner[a] != Batch2ColorToScanner[b]
  {
  }

  /** Which slots each table names. */
  lemma SlotRanges(n: int)
    ensures n in Batch1Ips <==> 1 <= n <= 4
    ensures n in Batch1Colors <==> 1 <= n <= 4
    ensures n in Batch2Ips <==> 5 <= n <= 8
    ensures n in Batch2Colors <==> 5 <= n <= 8
    ensures n in FleetIps <==> 1 <= n <= 8
  {
  }
}
