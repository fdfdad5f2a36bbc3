/**
 * Well-formedness of a scanned QR identifier: `validate_qr_string`, a full match of
 * `(\{[^{}]+\})+` — one or more chunks `{` + non-empty brace-free text + `}`, back to back.
 */
module QrFormat {

  predicate IsBrace(c: char)
  {
    c == '{' || c == '}'
  }

  /** How much of `s` the greedy class `[^{}]+` (or `*`) consumes. */
  function BraceFreeRun(s: string): (n: nat)
    ensures n <= |s|
  {
    if s == [] || IsBrace(s[0]) then 0 else 1 + BraceFreeRun(s[1..])
  }

  /** The run stops exactly at the first brace: everything before it is brace-free. */
  lemma {:induction false} BraceFreeRunStops(s: string)
    ensures forall k | 0 <= k < BraceFreeRun(s) :: !IsBrace(s[k])
    ensures BraceFreeRun(s) < |s| ==> IsBrace(s[BraceFreeRun(s)])
  {
    if s != [] && !IsBrace(s[0]) {
      BraceFreeRunStops(s[1..]);
      forall k | 1 <= k < BraceFreeRun(s)
        ensures !IsBrace(s[k])
      {
        assert s[k] == s[1..][k - 1];
      }
    }
  }

  /**
   * Recogniser for `(\{[^{}]+\})*` matched against the whole of `s`. A chunk ends at the
   * first `}`, because the class inside it excludes `}`; so the decomposition is forced and
   * no backtracking is needed.
   */
  predicate ChunkRun(s: string)
    decreases |s|
  {
    s == []
    || (s[0] == '{'
        && var n := BraceFreeRun(s[1..]);
        n >= 1 && n + 1 < |s| && s[n + 1] == '}' && ChunkRun(s[n + 2..]))
  }

  /** `validate_qr_string`. */
  predicate ValidQr(s: string)
  {
    s != [] && ChunkRun(s)
  }

  // ---------------------------------------------------------------------------
  // Reference grammar: a concatenation of one or more chunks.

  ghost predicate IsChunk(c: string)
  {
    && |c| >= 3
    && c[0] == '{'
    && c[|c| - 1] == '}'
    && forall k | 1 <= k < |c| - 1 :: !IsBrace(c[k])
  }

  function Concat(cs: seq<string>): string
  {
    if cs == [] then [] else cs[0] + Concat(cs[1..])
  }

  ghost predicate IsChunking(cs: seq<string>, s: string)
  {
    && |cs| > 0
    && (forall i | 0 <= i < |cs| :: IsChunk(cs[i]))
    && Concat(cs) == s
  }

  ghost predicate WellFormed(s: string)
  {
    exists cs :: IsChunking(cs, s)
  }

  /** The chunks the recogniser walks through. */
  function Chunks(s: string): seq<string>
    requires ChunkRun(s)
    decreases |s|
  {
    if s == [] then []
    else
      var n := BraceFreeRun(s[1..]);
      [s[..n + 2]] + Chunks(s[n + 2..])
  }

  /** The first step of the recogniser cuts off exactly one chunk. */
  lemma FirstChunk(s: string)
    requires s != [] && ChunkRun(s)
    ensures IsChunk(s[..BraceFreeRun(s[1..]) + 2])
  {
    var n := BraceFreeRun(s[1..]);
    var c := s[..n + 2];
    BraceFreeRunStops(s[1..]);
    forall k | 1 <= k < |c| - 1
      ensures !IsBrace(c[k])
    {
      assert c[k] == s[1..][k - 1];
    }
  }

  /** Every piece the recogniser cuts off is a chunk. */
  lemma {:induction false} ChunksAreChunks(s: string)
    requires ChunkRun(s)
    ensures forall i | 0 <= i < |Chunks(s)| :: IsChunk(Chunks(s)[i])
    decreases |s|
  {
    if s != [] {
      var n := BraceFreeRun(s[1..]);
      var rest := s[n + 2..];
      ChunksAreChunks(rest);
      FirstChunk(s);
      var cs := Chunks(s);
      forall i | 0 <= i < |cs|
        ensures IsChunk(cs[i])
      {
        if i > 0 {
          assert cs[i] == Chunks(rest)[i - 1];
        }
      }
    }
  }

  /** The pieces the recogniser cuts off glue back to the whole string. */
  lemma {:induction false} ConcatChunks(s: string)
    requires ChunkRun(s)
    ensures Concat(Chunks(s)) == s
    decreases |s|
  {
    if s != [] {
      var n := BraceFreeRun(s[1..]);
      var c := s[..n + 2];
      var rest := s[n + 2..];
      assert ChunkRun(rest);
      calc {
        Concat(Chunks(s));
        { assert Chunks(s) == [c] + Chunks(rest); }
        Concat([c] + Chunks(rest));
        { ConcatCons(c, Chunks(rest)); }
        c + Concat(Chunks(rest));
        { ConcatChunks(rest); }
        c + rest;
        { assert s == c + rest; }
        s;
      }
    }
  }



  lemma ConcatCons(c: string, cs: seq<string>)
    ensures Concat([c] + cs) == c + Concat(cs)
  {
    assert ([c] + cs)[1..] == cs;
  }

  /** The recogniser's chunks form a chunking of any non-empty chunk run. */
  lemma ChunksDecompose(s: string)
    requires ChunkRun(s)
    ensures forall i | 0 <= i < |Chunks(s)| :: IsChunk(Chunks(s)[i])
    ensures Concat(Chunks(s)) == s
    ensures s != [] ==> |Chunks(s)| > 0
  {
    ChunksAreChunks(s);
    ConcatChunks(s);
  }

  /** Gluing a chunk in front of a chunk run gives a chunk run. */
  lemma ChunkThenRun(c: string, rest: string)
    requires IsChunk(c)
    requires ChunkRun(rest)
    ensures ChunkRun(c + rest)
  {
    var s := c + rest;
    var t := s[1..];
    var n := BraceFreeRun(t);
    BraceFreeRunStops(t);
    assert t[|c| - 2] == c[|c| - 1];
    forall k | 0 <= k < |c| - 2
      ensures !IsBrace(t[k])
    {
      assert t[k] == c[k + 1];
    }
    assert n == |c| - 2;
    assert s[n + 2..] == rest;
  }

  lemma {:induction false} ConcatIsChunkRun(cs: seq<string>)
    requires forall i | 0 <= i < |cs| :: IsChunk(cs[i])
    ensures ChunkRun(Concat(cs))
  {
    if cs != [] {
      ConcatIsChunkRun(cs[1..]);
      ChunkThenRun(cs[0], Concat(cs[1..]));
    }
  }

  /** The recogniser accepts exactly the concatenations of one or more chunks. */
  lemma ValidQrIffWellFormed(s: string)
    ensures ValidQr(s) <==> WellFormed(s)
  {
    if ValidQr(s) {
      ChunksDecompose(s);
      assert IsChunking(Chunks(s), s);
    }
    if WellFormed(s) {
      var cs :| IsChunking(cs, s);
      ConcatIsChunkRun(cs);
      assert s == cs[0] + Concat(cs[1..]);
      assert |cs[0]| >= 3;
    }
  }

  /** Every accepted identifier opens with `{` and closes with `}`. */
  lemma {:induction false} ValidQrBracketed(s: string)
    requires ValidQr(s)
    ensures s[0] == '{' && s[|s| - 1] == '}'
    decreases |s|
  {
    var n := BraceFreeRun(s[1..]);
    if n + 2 < |s| {
      ValidQrBracketed(s[n + 2..]);
    }
  }

  /** The cases the identifier check exists to reject, and one it accepts. */
  lemma ValidQrRejects()
    ensures !ValidQr("")
    ensures !ValidQr("{}")
    ensures !ValidQr("{a")
    ensures !ValidQr("a{b}")
    ensures !ValidQr("{{a}}")
  {
    assert BraceFreeRun("}") == 0;
    assert BraceFreeRun("a") == 1;
    assert BraceFreeRun("{a}}") == 0;
  }

  lemma ValidQrAccepts()
    ensures ValidQr("{a}{b c}")
  {
    var s := "{a}{b c}";
    assert BraceFreeRun("a}{b c}") == 1;
    var t := "{b c}";
    assert s[3..] == t;
    assert BraceFreeRun("b c}") == 3;
    assert t[5..] == "";
  }
}
