/**
 * Names and paths derived from a QR identifier: the remote-safe name used on the
 * scanner VM, the local name of the retrieved file, and the two paths built from them.
 */
module Filenames {

  /** `s.replace(c, with)` for a one-character pattern. */
  function ReplaceChar(s: string, c: char, with: string): string
    decreases |s|
  {
    if s == [] then []
    else (if s[0] == c then with else [s[0]]) + ReplaceChar(s[1..], c, with)
  }

  /** Every character of the result is from the replacement or an untouched one of `s`. */
  lemma {:induction false} ReplaceCharChars(s: string, c: char, with: string)
    ensures forall x | x in ReplaceChar(s, c, with) :: x in with || (x in s && x != c)
    decreases |s|
  {
    if s != [] {
      ReplaceCharChars(s[1..], c, with);
    }
  }

  /** Nothing to replace leaves the string as it is. */
  lemma {:induction false} ReplaceCharAbsent(s: string, c: char, with: string)
    requires c !in s
    ensures ReplaceChar(s, c, with) == s
    decreases |s|
  {
    if s != [] {
      ReplaceCharAbsent(s[1..], c, with);
    }
  }

  /** A one-character replacement rewrites in place. */
  lemma {:induction false} ReplaceCharSingle(s: string, c: char, with: string)
    requires |with| == 1
    ensures |ReplaceChar(s, c, with)| == |s|
    ensures forall i | 0 <= i < |s| ::
      ReplaceChar(s, c, with)[i] == (if s[i] == c then with[0] else s[i])
    decreases |s|
  {
    if s != [] {
      ReplaceCharSingle(s[1..], c, with);
      var r := ReplaceChar(s, c, with);
      assert r == [if s[0] == c then with[0] else s[0]] + ReplaceChar(s[1..], c, with);
    }
  }

  lemma {:induction false} ReplaceCharAppend(a: string, b: string, c: char, with: string)
    ensures ReplaceChar(a + b, c, with) == ReplaceChar(a, c, with) + ReplaceChar(b, c, with)
    decreases |a|
  {
    if a != [] {
      assert (a + b)[1..] == a[1..] + b;
      ReplaceCharAppend(a[1..], b, c, with);
    } else {
      assert a + b == b;
    }
  }

  /** `sanitize_filename`: `{` → `AAA`, then `}` → `BBB`, then space → `_`. */
  function SanitizeFilename(qr: string): string
  {
    ReplaceChar(ReplaceChar(ReplaceChar(qr, '{', "AAA"), '}', "BBB"), ' ', "_")
  }

  /** `local_filename`: space → `_`, everything else kept. */
  function LocalFilename(qr: string): (r: string)
    ensures |r| == |qr|
    ensures forall i | 0 <= i < |qr| :: r[i] == (if qr[i] == ' ' then '_' else qr[i])
    ensures ' ' !in r
  {
    ReplaceCharSingle(qr, ' ', "_");
    ReplaceChar(qr, ' ', "_")
  }

  /** What one character of the identifier becomes in the remote-safe name. */
  function SanitizeChar(c: char): string
  {
    if c == '{' then "AAA" else if c == '}' then "BBB" else if c == ' ' then "_" else [c]
  }

  function SanitizeEach(s: string): string
  {
    if s == [] then [] else SanitizeChar(s[0]) + SanitizeEach(s[1..])
  }

  lemma SanitizeOneChar(c: char)
    ensures SanitizeFilename([c]) == SanitizeChar(c)
  {
    var a1 := ReplaceChar([c], '{', "AAA");
    assert a1 == (if c == '{' then "AAA" else [c]) + ReplaceChar([c][1..], '{', "AAA");
    var a2 := ReplaceChar(a1, '}', "BBB");
    if c == '{' {
      ReplaceCharAbsent(a1, '}', "BBB");
      ReplaceCharAbsent(a2, ' ', "_");
    } else {
      assert a2 == (if c == '}' then "BBB" else [c]) + ReplaceChar([c][1..], '}', "BBB");
      if c == '}' {
        ReplaceCharAbsent(a2, ' ', "_");
      } else {
        assert ReplaceChar(a2, ' ', "_") == (if c == ' ' then "_" else [c]) + ReplaceChar([c][1..], ' ', "_");
      }
    }
  }

  /** The three chained passes equal one character-by-character rewrite. */
  lemma {:induction false} SanitizeIsPointwise(s: string)
    ensures SanitizeFilename(s) == SanitizeEach(s)
    decreases |s|
  {
    if s != [] {
      var head := [s[0]];
      assert s == head + s[1..];
      ReplaceCharAppend(head, s[1..], '{', "AAA");
      var a1 := ReplaceChar(head, '{', "AAA");
      var b1 := ReplaceChar(s[1..], '{', "AAA");
      ReplaceCharAppend(a1, b1, '}', "BBB");
      var a2 := ReplaceChar(a1, '}', "BBB");
      var b2 := ReplaceChar(b1, '}', "BBB");
      ReplaceCharAppend(a2, b2, ' ', "_");
      SanitizeIsPointwise(s[1..]);
      SanitizeOneChar(s[0]);
    }
  }

  /** The remote-safe name contains no brace and no space. */
  lemma SanitizeIsSafe(qr: string)
    ensures '{' !in SanitizeFilename(qr)
    ensures '}' !in SanitizeFilename(qr)
    ensures ' ' !in SanitizeFilename(qr)
  {
    var a := ReplaceChar(qr, '{', "AAA");
    var b := ReplaceChar(a, '}', "BBB");
    ReplaceCharChars(qr, '{', "AAA");
    ReplaceCharChars(a, '}', "BBB");
    ReplaceCharChars(b, ' ', "_");
  }

  /** Sanitising a second time changes nothing. */
  lemma SanitizeIdempotent(qr: string)
    ensures SanitizeFilename(SanitizeFilename(qr)) == SanitizeFilename(qr)
  {
    var r := SanitizeFilename(qr);
    SanitizeIsSafe(qr);
    ReplaceCharAbsent(r, '{', "AAA");
    ReplaceCharAbsent(r, '}', "BBB");
    ReplaceCharAbsent(r, ' ', "_");
  }

  /** Each brace costs two extra characters in the remote-safe name. */
  function BraceCount(s: string): nat
  {
    if s == [] then 0 else (if s[0] == '{' || s[0] == '}' then 1 else 0) + BraceCount(s[1..])
  }

  lemma {:induction false} SanitizeLength(qr: string)
    ensures |SanitizeFilename(qr)| == |qr| + 2 * BraceCount(qr)
  {
    SanitizeIsPointwise(qr);
    SanitizeEachLength(qr);
  }

  lemma {:induction false} SanitizeEachLength(s: string)
    ensures |SanitizeEach(s)| == |s| + 2 * BraceCount(s)
    decreases |s|
  {
    if s != [] {
      SanitizeEachLength(s[1..]);
    }
  }

  /** Replacing spaces first does not change the remote-safe name. */
  lemma {:induction false} SanitizeAfterLocal(qr: string)
    ensures SanitizeFilename(LocalFilename(qr)) == SanitizeFilename(qr)
  {
    SanitizeIsPointwise(qr);
    SanitizeIsPointwise(LocalFilename(qr));
    SanitizeEachAfterLocal(qr);
  }

  lemma {:induction false} SanitizeEachAfterLocal(s: string)
    ensures SanitizeEach(LocalFilename(s)) == SanitizeEach(s)
    decreases |s|
  {
    if s != [] {
      var l := LocalFilename(s);
      assert l[1..] == LocalFilename(s[1..]);
      SanitizeEachAfterLocal(s[1..]);
    }
  }

  /** The character-wise rewrite distributes over concatenation. */
  lemma {:induction false} SanitizeEachAppend(a: string, b: string)
    ensures SanitizeEach(a + b) == SanitizeEach(a) + SanitizeEach(b)
    decreases |a|
  {
    if a == [] {
      assert a + b == b;
    } else {
      assert (a + b)[1..] == a[1..] + b;
      SanitizeEachAppend(a[1..], b);
    }
  }

  /** A braced chunk keeps its content and trades its braces for `AAA` and `BBB`. */
  lemma SanitizeBracedChunk(x: string)
    ensures SanitizeFilename("{" + x + "}") == "AAA" + SanitizeFilename(x) + "BBB"
  {
    SanitizeIsPointwise("{" + x + "}");
    SanitizeIsPointwise(x);
    SanitizeEachAppend("{" + x, "}");
    SanitizeEachAppend("{", x);
    assert SanitizeEach("{") == "AAA";
    assert SanitizeEach("}") == "BBB";
  }

  /**
   * The remote-safe name forgets braces: `{x}` and `AAAxBBB` share it while their local
   * names differ, so the local name has to come from the original identifier.
   */
  lemma SanitizeLosesBraces(x: string)
    requires '{' !in x && '}' !in x && ' ' !in x
    ensures SanitizeFilename("{" + x + "}") == SanitizeFilename("AAA" + x + "BBB")
    ensures LocalFilename("{" + x + "}") != LocalFilename("AAA" + x + "BBB")
  {
    SanitizeBracedChunk(x);
    var plain := "AAA" + x + "BBB";
    assert '{' !in plain && '}' !in plain && ' ' !in plain;
    ReplaceCharAbsent(x, '{', "AAA");
    ReplaceCharAbsent(x, '}', "BBB");
    ReplaceCharAbsent(x, ' ', "_");
    ReplaceCharAbsent(plain, '{', "AAA");
    ReplaceCharAbsent(plain, '}', "BBB");
    ReplaceCharAbsent(plain, ' ', "_");
    assert LocalFilename("{" + x + "}")[0] == '{';
    assert LocalFilename(plain)[0] == 'A';
  }

  /** Worked example: `{AB CD}` is named `AAAAB_CDBBB` on the scanner VM. */
  lemma SanitizeExample()
    ensures SanitizeFilename("{AB CD}") == "AAAAB_CDBBB"
  {
    SanitizeIsPointwise("{AB CD}");
    SanitizeEachExample();
  }

  lemma SanitizeEachExample()
    ensures SanitizeEach("{AB CD}") == "AAAAB_CDBBB"
  {
    var s := "{AB CD}";
    assert SanitizeEach("D}") == "D" + SanitizeEach("}") by { assert "D}"[1..] == "}"; }
    assert SanitizeEach("}") == "BBB" by { assert "}"[1..] == []; }
    assert SanitizeEach("CD}") == "C" + SanitizeEach("D}") by { assert "CD}"[1..] == "D}"; }
    assert SanitizeEach(" CD}") == "_" + SanitizeEach("CD}") by { assert " CD}"[1..] == "CD}"; }
    assert SanitizeEach("B CD}") == "B" + SanitizeEach(" CD}") by { assert "B CD}"[1..] == " CD}"; }
    assert SanitizeEach("AB CD}") == "A" + SanitizeEach("B CD}") by { assert "AB CD}"[1..] == "B CD}"; }
    assert SanitizeEach(s) == "AAA" + SanitizeEach("AB CD}") by { assert s[1..] == "AB CD}"; }
  }

  /** Worked example: `{AB CD}` is named `{AB_CD}` locally; only the space changes. */
  lemma LocalExample()
    ensures LocalFilename("{AB CD}") == "{AB_CD}"
  {
    var l := LocalFilename("{AB CD}");
    assert l[3] == '_';
  }

  // ---------------------------------------------------------------------------
  // Paths

  /** A POSIX `pathlib` path: whether it is rooted, and its non-empty components. */
  datatype Path = Path(absolute: bool, parts: seq<string>)

  /** Split on `/`, keeping empty pieces (`str.split("/")`). */
  function SplitSlash(s: string): (r: seq<string>)
    ensures |r| >= 1
    ensures forall i | 0 <= i < |r| :: '/' !in r[i]
    ensures '/' !in s ==> r == [s]
    decreases |s|
  {
    if s == [] then [[]]
    else
      var rest := SplitSlash(s[1..]);
      assert '/' !in s ==> '/' !in s[1..] && s == [s[0]] + s[1..];
      if s[0] == '/' then [[]] + rest else [[s[0]] + rest[0]] + rest[1..]
  }

  /** `pathlib` drops empty and `.` components. */
  function KeepParts(ps: seq<string>): (r: seq<string>)
    ensures forall i | 0 <= i < |r| :: r[i] != [] && r[i] != "."
    ensures (forall i | 0 <= i < |ps| :: ps[i] != [] && ps[i] != ".") ==> r == ps
  {
    if ps == [] then []
    else if ps[0] == [] || ps[0] == "." then KeepParts(ps[1..])
    else [ps[0]] + KeepParts(ps[1..])
  }

  /** `PurePosixPath(s)`. */
  function PathOf(s: string): (p: Path)
    ensures p.absolute <==> |s| > 0 && s[0] == '/'
    ensures '/' !in s && s != [] && s != "." ==> p == Path(false, [s])
  {
    Path(|s| > 0 && s[0] == '/', KeepParts(SplitSlash(s)))
  }

  /** `a / b`: an absolute right operand replaces the left one. */
  function Join(a: Path, b: Path): (r: Path)
    ensures b.absolute ==> r == b
    ensures !b.absolute ==> r.absolute == a.absolute && r.parts == a.parts + b.parts
  {
    if b.absolute then b else Path(a.absolute, a.parts + b.parts)
  }

  /** `/output/<sanitized>.tiff`, the file the remote capture writes. */
  function RemotePath(qr: string): (r: string)
    ensures |r| >= 13 && r[..8] == "/output/" && r[|r| - 5..] == ".tiff"
    ensures '{' !in r && '}' !in r && ' ' !in r
  {
    SanitizeIsSafe(qr);
    "/output/" + SanitizeFilename(qr) + ".tiff"
  }

  /** The file name of the retrieved artifact. */
  function LocalName(qr: string): string
  {
    LocalFilename(qr) + ".tiff"
  }

  /** `DEST_DIR / color`, the per-scanner folder. */
  function ScannerFolder(dest: Path, color: string): Path
  {
    Join(dest, PathOf(color))
  }

  /** `scanner_folder / f"{local_safe}.tiff"`. */
  function FolderLocalPath(dest: Path, color: string, qr: string): Path
  {
    Join(ScannerFolder(dest, color), PathOf(LocalName(qr)))
  }

  /** `DEST_DIR / scanner_folder / f"{local_safe}.tiff"`. */
  function NestedLocalPath(dest: Path, color: string, qr: string): Path
  {
    Join(Join(dest, ScannerFolder(dest, color)), PathOf(LocalName(qr)))
  }

  /** `DEST_DIR / f"{local_safe}.tiff"`, the flat layout without a per-colour folder. */
  function FlatLocalPath(dest: Path, qr: string): Path
  {
    Join(dest, PathOf(LocalName(qr)))
  }

  /**
   * Prefixing the destination root a second time is harmless: the scanner folder is
   * already absolute, so it wins the join.
   */
  lemma NestedEqualsFolder(dest: Path, color: string, qr: string)
    requires dest.absolute
    ensures NestedLocalPath(dest, color, qr) == FolderLocalPath(dest, color, qr)
  {
  }

  /**
   * For a colour and an identifier without `/`, the local file sits directly in
   * `<dest>/<color>/`, named after the original identifier with spaces replaced.
   */
  lemma FolderLocalPathShape(dest: Path, color: string, qr: string)
    requires color != [] && color != "." && '/' !in color
    requires '/' !in qr
    ensures FolderLocalPath(dest, color, qr)
         == Path(dest.absolute, dest.parts + [color, LocalFilename(qr) + ".tiff"])
  {
    var n := LocalName(qr);
    assert n[|n| - 5..] == ".tiff";
    assert '/' !in n by {
      forall i | 0 <= i < |n|
        ensures n[i] != '/'
      {
        if i < |qr| {
          assert n[i] == LocalFilename(qr)[i];
        } else {
          assert n[i] == ".tiff"[i - |qr|];
        }
      }
    }
    assert n != "." by {
      assert |n| >= 5;
    }
  }

  lemma FlatLocalPathShape(dest: Path, qr: string)
    requires '/' !in qr
    ensures FlatLocalPath(dest, qr) == Path(dest.absolute, dest.parts + [LocalFilename(qr) + ".tiff"])
  {
    var n := LocalName(qr);
    assert '/' !in n by {
      forall i | 0 <= i < |n|
        ensures n[i] != '/'
      {
        if i < |qr| {
          assert n[i] == LocalFilename(qr)[i];
        } else {
          assert n[i] == ".tiff"[i - |qr|];
        }
      }
    }
    assert |n| >= 5;
  }
}
