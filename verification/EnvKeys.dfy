/** The environment-variable key codec of pkg/config: "__" separates levels, letters are upper case. */
module EnvKeys {
  import opened Common

  const SEPARATOR := "__"

  /** The letter maps of the language, one character at a time. */
  datatype Letters = Letters(lower: char -> char, upper: char -> char)

  const ASCII := Letters(LowerLetter, UpperLetter)

  function Mapped(letter: char -> char, s: string): string {
    if s == "" then "" else [letter(s[0])] + Mapped(letter, s[1..])
  }

  function TrimPrefix(s: string, prefix: string): string {
    if prefix <= s then s[|prefix|..] else s
  }

  /** Replace every "__", scanning from the left, by ".". */
  function Dotted(s: string): string {
    if s == "" then ""
    else if SEPARATOR <= s then "." + Dotted(s[2..])
    else [s[0]] + Dotted(s[1..])
  }

  /** The loader's mapping of a variable name to a configuration key. */
  function MapKey(letters: Letters, prefix: string, name: string): string {
    Dotted(Mapped(letters.lower, TrimPrefix(name, prefix)))
  }

  function Join(path: seq<string>, separator: string): string
    requires path != []
  {
    if |path| == 1 then path[0] else path[0] + separator + Join(path[1..], separator)
  }

  /** The variable name for a path of key segments. */
  function Encode(letters: Letters, prefix: string, path: seq<string>): string
    requires path != []
  {
    prefix + Mapped(letters.upper, Join(path, SEPARATOR))
  }

  // ---------------------------------------------------------------- letters

  lemma {:induction false} MappedAt(letter: char -> char, s: string)
    ensures |Mapped(letter, s)| == |s| && forall i :: 0 <= i < |s| ==> Mapped(letter, s)[i] == letter(s[i])
  {
    if s != "" { MappedAt(letter, s[1..]); }
  }

  lemma MappedAdd(letter: char -> char, s: string, t: string)
    ensures Mapped(letter, s + t) == Mapped(letter, s) + Mapped(letter, t)
  {
    MappedAt(letter, s);
    MappedAt(letter, t);
    MappedAt(letter, s + t);
    var joined, apart := Mapped(letter, s + t), Mapped(letter, s) + Mapped(letter, t);
    assert |joined| == |apart| && forall i :: 0 <= i < |joined| ==> joined[i] == letter((s + t)[i]) == apart[i];
  }

  /** What is left of a character that is spelled in upper case and read in lower case. */
  function Back(letters: Letters, c: char): char { letters.lower(letters.upper(c)) }

  function AllBack(letters: Letters, s: string): string { Mapped(letters.lower, Mapped(letters.upper, s)) }

  lemma AllBackAt(letters: Letters, s: string)
    ensures |AllBack(letters, s)| == |s| && forall i :: 0 <= i < |s| ==> AllBack(letters, s)[i] == Back(letters, s[i])
  {
    MappedAt(letters.upper, s);
    MappedAt(letters.lower, Mapped(letters.upper, s));
  }

  /** The letter maps leave the marks of the codec alone, and turn nothing else into an underscore. */
  ghost predicate KeepsMarks(letters: Letters) {
    Back(letters, '.') == '.' && forall c :: Back(letters, c) == '_' <==> c == '_'
  }

  /** Every character comes back: for ASCII letters, none is in upper case. */
  predicate LowerCase(letters: Letters, s: string) {
    forall i :: 0 <= i < |s| ==> Back(letters, s[i]) == s[i]
  }

  predicate AllLowerCase(letters: Letters, path: seq<string>) {
    forall k :: 0 <= k < |path| ==> LowerCase(letters, path[k])
  }

  lemma AsciiLetters(s: string)
    ensures KeepsMarks(ASCII)
    ensures LowerCase(ASCII, s) <==> forall i :: 0 <= i < |s| ==> !('A' <= s[i] <= 'Z')
  {
    forall c ensures Back(ASCII, c) == c <==> !('A' <= c <= 'Z') { AsciiBack(c); }
    forall c ensures Back(ASCII, c) == '_' <==> c == '_' { AsciiBack(c); }
  }

  lemma AsciiBack(c: char)
    ensures Back(ASCII, c) == LowerLetter(c)
  {}

  lemma AllBackIff(letters: Letters, s: string)
    ensures AllBack(letters, s) == s <==> LowerCase(letters, s)
  {
    AllBackAt(letters, s);
  }

  lemma LowerCaseAdd(letters: Letters, s: string, t: string)
    ensures LowerCase(letters, s + t) <==> LowerCase(letters, s) && LowerCase(letters, t)
  {
    var l := s + t;
    assert forall i :: 0 <= i < |s| ==> l[i] == s[i];
    assert forall i :: 0 <= i < |t| ==> l[|s| + i] == t[i];
    assert forall i :: |s| <= i < |l| ==> l[i] == t[i - |s|];
  }

  lemma {:induction false} LowerCaseJoin(letters: Letters, path: seq<string>, separator: string)
    requires path != [] && LowerCase(letters, separator)
    ensures LowerCase(letters, Join(path, separator)) <==> AllLowerCase(letters, path)
  {
    if |path| > 1 {
      var rest := path[1..];
      LowerCaseJoin(letters, rest, separator);
      LowerCaseAdd(letters, path[0], separator);
      LowerCaseAdd(letters, path[0] + separator, Join(rest, separator));
      assert forall k :: 0 < k < |path| ==> path[k] == rest[k - 1];
    }
  }

  // ---------------------------------------------------------------- the scan

  predicate SeparatorAt(s: string, i: nat) {
    i + 1 < |s| && s[i] == '_' && s[i+1] == '_'
  }

  predicate NoSeparator(s: string) {
    forall i: nat :: i < |s| ==> !SeparatorAt(s, i)
  }

  predicate EndsInUnderscore(s: string) {
    s != "" && s[|s|-1] == '_'
  }

  lemma NoSeparatorTail(s: string)
    requires s != "" && NoSeparator(s)
    ensures NoSeparator(s[1..])
  {
    forall i: nat | i < |s[1..]| ensures !SeparatorAt(s[1..], i) { assert !SeparatorAt(s, i + 1); }
  }

  lemma StartsWithSeparator(t: string)
    ensures SEPARATOR <= t <==> SeparatorAt(t, 0)
  {
    assert |t| > 1 ==> t == [t[0], t[1]] + t[2..];
  }

  lemma NoSeparatorFirst(s: string, rest: string)
    requires s != "" && NoSeparator(s) && (EndsInUnderscore(s) ==> rest == "" || rest[0] != '_')
    ensures !(SEPARATOR <= s + rest)
  {
    var t := s + rest;
    assert !SeparatorAt(s, 0);
    StartsWithSeparator(t);
    assert |t| > 1 ==> t[1] == if |s| > 1 then s[1] else rest[0];
  }

  /** A piece without a separator, not running into one early, is copied. */
  lemma {:induction false} ScanPiece(s: string, rest: string)
    requires NoSeparator(s) && (EndsInUnderscore(s) ==> rest == "" || rest[0] != '_')
    ensures Dotted(s + rest) == s + Dotted(rest)
  {
    if s == "" {
      assert s + rest == rest && s + Dotted(rest) == Dotted(rest);
    } else {
      assert (s + rest)[1..] == s[1..] + rest;
      NoSeparatorTail(s);
      ScanPiece(s[1..], rest);
      NoSeparatorFirst(s, rest);
      assert [s[0]] + (s[1..] + Dotted(rest)) == s + Dotted(rest);
    }
  }

  /** The first separator becomes a dot at its own position. */
  lemma {:induction false} ScanToSeparator(s: string, i: nat)
    requires SeparatorAt(s, i) && NoSeparator(s[..i+1])
    ensures i < |Dotted(s)| && Dotted(s)[i] == '.'
  {
    if i > 0 {
      assert !SeparatorAt(s[..i+1], 0);
      assert s[1..][..i] == s[..i+1][1..];
      NoSeparatorTail(s[..i+1]);
      ScanToSeparator(s[1..], i - 1);
    }
  }

  lemma PrefixWithoutSeparator(s: string, i: nat)
    requires 0 < i < |s| && !SeparatorAt(s, 0) && NoSeparator(s[1..][..i])
    ensures NoSeparator(s[..i+1])
  {
    var t, u := s[..i+1], s[1..][..i];
    forall k: nat | k < |t| ensures !SeparatorAt(t, k) {
      if k > 0 { assert !SeparatorAt(u, k - 1); }
    }
  }

  /** A text with a separator has a first one. */
  lemma {:induction false} FirstSeparator(s: string) returns (i: nat)
    requires !NoSeparator(s)
    ensures SeparatorAt(s, i) && NoSeparator(s[..i+1])
  {
    if SeparatorAt(s, 0) {
      i := 0;
    } else {
      var j: nat :| j < |s| && SeparatorAt(s, j);
      assert SeparatorAt(s[1..], j - 1);
      i := FirstSeparator(s[1..]);
      i := i + 1;
      PrefixWithoutSeparator(s, i);
    }
  }

  // ---------------------------------------------------------------- round trip

  /** No segment contains the separator, and none but the last ends in an underscore. */
  predicate Safe(path: seq<string>) {
    forall k :: 0 <= k < |path| ==> NoSeparator(path[k]) && (k < |path| - 1 ==> !EndsInUnderscore(path[k]))
  }

  /** Scanning turns a joined path into the dotted one exactly when the path is safe. */
  lemma ScanPath(path: seq<string>)
    requires path != []
    ensures Dotted(Join(path, SEPARATOR)) == Join(path, ".") <==> Safe(path)
  {
    if Safe(path) {
      ScanSafe(path);
    } else {
      var i := ScanUnsafe(path);
    }
  }

  lemma {:induction false} ScanSafe(path: seq<string>)
    requires path != [] && Safe(path)
    ensures Dotted(Join(path, SEPARATOR)) == Join(path, ".")
  {
    if |path| == 1 {
      ScanPiece(path[0], "");
      assert path[0] + "" == path[0];
    } else {
      SafeTail(path);
      ScanSafe(path[1..]);
      ScanHead(path);
    }
  }

  /** In an unsafe path some underscore of a segment becomes part of a level separator. */
  lemma {:induction false} ScanUnsafe(path: seq<string>) returns (i: nat)
    requires path != [] && !Safe(path)
    ensures var d, joined := Dotted(Join(path, SEPARATOR)), Join(path, ".");
            i < |d| && i < |joined| && d[i] == '.' && joined[i] == '_'
  {
    var s := path[0];
    if |path| == 1 {
      i := FirstSeparator(s);
      ScanToSeparator(s, i);
    } else if NoSeparator(s) && !EndsInUnderscore(s) {
      SafeTail(path);
      i := ScanUnsafe(path[1..]);
      i := |s + "."| + i;
      ScanHead(path);
    } else {
      var tail := Join(path[1..], SEPARATOR);
      assert Join(path, SEPARATOR) == s + (SEPARATOR + tail);
      EarlySeparator(s, tail);
      i :| 0 <= i < |s| && s[i] == '_' && i < |Dotted(s + (SEPARATOR + tail))|
        && Dotted(s + (SEPARATOR + tail))[i] == '.';
      assert Join(path, ".")[i] == s[i];
    }
  }

  lemma ScanHead(path: seq<string>)
    requires |path| > 1 && NoSeparator(path[0]) && !EndsInUnderscore(path[0])
    ensures Dotted(Join(path, SEPARATOR)) == (path[0] + ".") + Dotted(Join(path[1..], SEPARATOR))
    ensures Join(path, ".") == (path[0] + ".") + Join(path[1..], ".")
  {
    var s, tail := path[0], Join(path[1..], SEPARATOR);
    assert Join(path, SEPARATOR) == s + (SEPARATOR + tail);
    ScanPiece(s, SEPARATOR + tail);
    assert (SEPARATOR + tail)[2..] == tail;
  }

  lemma CancelPrefix(p: string, a: string, b: string)
    ensures p + a == p + b <==> a == b
  {
    if p + a == p + b {
      assert a == (p + a)[|p|..] && b == (p + b)[|p|..];
    }
  }

  lemma SafeTail(path: seq<string>)
    requires |path| > 1 && NoSeparator(path[0]) && !EndsInUnderscore(path[0])
    ensures Safe(path) <==> Safe(path[1..])
  {
    var t := path[1..];
    if Safe(t) {
      forall k | 0 <= k < |path| ensures NoSeparator(path[k]) && (k < |path| - 1 ==> !EndsInUnderscore(path[k])) {
        if k > 0 { assert path[k] == t[k-1]; }
      }
    }
  }

  /** A separator inside `s`, or formed by its last underscore, turns one of its underscores into a dot. */
  lemma EarlySeparator(s: string, tail: string)
    requires !NoSeparator(s) || EndsInUnderscore(s)
    ensures var d := Dotted(s + (SEPARATOR + tail)); exists i :: 0 <= i < |s| && s[i] == '_' && i < |d| && d[i] == '.'
  {
    var all := s + (SEPARATOR + tail);
    if !NoSeparator(s) {
      var i := FirstSeparator(s);
      assert all[..i+1] == s[..i+1];
      ScanToSeparator(all, i);
    } else {
      var i := |s| - 1;
      assert all[..i+1] == s;
      ScanToSeparator(all, i);
    }
  }

  /** The scan does not care about letters. */
  lemma {:induction false} ScanAllBack(letters: Letters, s: string)
    requires KeepsMarks(letters)
    ensures Dotted(AllBack(letters, s)) == AllBack(letters, Dotted(s))
  {
    if s != "" {
      var t := AllBack(letters, s);
      AllBackAt(letters, s);
      StartsWithSeparator(s);
      StartsWithSeparator(t);
      assert t[1..] == AllBack(letters, s[1..]);
      if SEPARATOR <= s {
        assert s[1..][1..] == s[2..] && t[1..][1..] == t[2..];
        ScanAllBack(letters, s[2..]);
        AllBackAdd(letters, ".", Dotted(s[2..]));
      } else {
        ScanAllBack(letters, s[1..]);
        AllBackAdd(letters, [s[0]], Dotted(s[1..]));
      }
    }
  }

  lemma AllBackAdd(letters: Letters, s: string, t: string)
    requires |s| == 1
    ensures AllBack(letters, s + t) == [Back(letters, s[0])] + AllBack(letters, t)
  {
    assert (s + t)[1..] == t;
  }

  /** Encoding a path and applying the loader's mapping gives back the dotted path exactly when all its letters come
      back, no segment contains "__" and no segment but the last ends in "_". */
  lemma RoundTrip(letters: Letters, prefix: string, path: seq<string>)
    requires path != [] && KeepsMarks(letters)
    ensures MapKey(letters, prefix, Encode(letters, prefix, path)) == Join(path, ".")
       <==> Safe(path) && AllLowerCase(letters, path)
  {
    var text := Join(path, SEPARATOR);
    var spelled := Mapped(letters.upper, text);
    assert (prefix + spelled)[|prefix|..] == spelled;
    ScanAllBack(letters, text);
    if Safe(path) {
      ScanSafe(path);
      AllBackIff(letters, Join(path, "."));
      LowerCaseJoin(letters, path, ".");
    } else {
      var i := ScanUnsafe(path);
      AllBackAt(letters, Dotted(text));
    }
  }

  // ---------------------------------------------------------------- injectivity

  predicate DotFree(s: string) { '.' !in s }

  lemma HeadNoLonger(a: string, b: string, x: string, y: string)
    requires DotFree(a) && a + x == b + y && (y == "" || y[0] == '.')
    ensures |a| <= |b|
  {
    var t := a + x;
    assert forall i :: 0 <= i < |a| ==> t[i] == a[i] && a[i] in a;
    assert y != "" ==> (b + y)[|b|] == '.';
  }

  lemma SameHead(a: string, b: string, x: string, y: string)
    requires DotFree(a) && DotFree(b) && a + x == b + y
    requires (x == "" || x[0] == '.') && (y == "" || y[0] == '.')
    ensures a == b && x == y
  {
    HeadNoLonger(a, b, x, y);
    HeadNoLonger(b, a, y, x);
    assert a == (a + x)[..|a|] && b == (b + y)[..|b|];
    assert x == (a + x)[|a|..] && y == (b + y)[|b|..];
  }

  lemma {:induction false} DottedPathInjective(p: seq<string>, q: seq<string>)
    requires p != [] && q != [] && Join(p, ".") == Join(q, ".")
    requires (forall k :: 0 <= k < |p| ==> DotFree(p[k])) && (forall k :: 0 <= k < |q| ==> DotFree(q[k]))
    ensures p == q
  {
    var x := if |p| == 1 then "" else "." + Join(p[1..], ".");
    var y := if |q| == 1 then "" else "." + Join(q[1..], ".");
    assert Join(p, ".") == p[0] + x && Join(q, ".") == q[0] + y;
    SameHead(p[0], q[0], x, y);
    if |p| > 1 {
      assert x[1..] == Join(p[1..], ".") && y[1..] == Join(q[1..], ".");
      DottedPathInjective(p[1..], q[1..]);
      assert p == [p[0]] + p[1..] && q == [q[0]] + q[1..];
    }
  }

  // ---------------------------------------------------------------- the safe reading of a text

  /** The path read off a text by cutting at the leftmost separators. */
  ghost function Split(text: string): (path: seq<string>)
    ensures path != []
  {
    if NoSeparator(text) then [text]
    else
      var i := FirstCut(text);
      [text[..i]] + Split(text[i+2..])
  }

  ghost function FirstCut(text: string): (i: nat)
    requires !NoSeparator(text)
    ensures SeparatorAt(text, i) && NoSeparator(text[..i+1])
  {
    FirstExists(text);
    var i: nat :| SeparatorAt(text, i) && NoSeparator(text[..i+1]);
    i
  }

  lemma FirstExists(text: string)
    requires !NoSeparator(text)
    ensures exists i: nat :: SeparatorAt(text, i) && NoSeparator(text[..i+1])
  {
    var i := FirstSeparator(text);
  }

  /** There is only one first separator. */
  lemma FirstUnique(text: string, i: nat, j: nat)
    requires SeparatorAt(text, i) && NoSeparator(text[..i+1])
    requires SeparatorAt(text, j) && NoSeparator(text[..j+1])
    ensures i == j
  {
    assert i < j ==> SeparatorAt(text[..j+1], i);
    assert j < i ==> SeparatorAt(text[..i+1], j);
  }

  /** A piece cut off at the first separator is safe to stand before another. */
  lemma PieceIsSafe(text: string, i: nat)
    requires SeparatorAt(text, i) && NoSeparator(text[..i+1])
    ensures NoSeparator(text[..i]) && !EndsInUnderscore(text[..i])
  {
    var u, v := text[..i+1], text[..i];
    forall k: nat | k < |v| ensures !SeparatorAt(v, k) { assert !SeparatorAt(u, k); }
    assert i > 0 ==> !SeparatorAt(u, i - 1);
  }

  /** Every text is the joining of one safe path: its reading. */
  lemma {:induction false} SplitJoins(text: string)
    ensures Safe(Split(text)) && Join(Split(text), SEPARATOR) == text
    decreases |text|
  {
    if !NoSeparator(text) {
      var i := FirstCut(text);
      var rest := Split(text[i+2..]);
      SplitJoins(text[i+2..]);
      PieceIsSafe(text, i);
      var path := [text[..i]] + rest;
      assert path[1..] == rest;
      SafeTail(path);
      assert text == text[..i] + SEPARATOR + text[i+2..];
    }
  }

  /** Reading a joined path gives the path back exactly when it is safe. */
  lemma {:induction false} SplitOfJoin(path: seq<string>)
    requires path != []
    ensures Split(Join(path, SEPARATOR)) == path <==> Safe(path)
  {
    if Safe(path) { SafeSplit(path); }
    SplitJoins(Join(path, SEPARATOR));
  }

  lemma {:induction false} SafeSplit(path: seq<string>)
    requires path != [] && Safe(path)
    ensures Split(Join(path, SEPARATOR)) == path
  {
    var s, text := path[0], Join(path, SEPARATOR);
    if |path| > 1 {
      var tail := Join(path[1..], SEPARATOR);
      SafeTail(path);
      SafeSplit(path[1..]);
      assert text == s + SEPARATOR + tail && text[..|s|+1] == s + "_" && text[|s|+2..] == tail;
      SafeEnd(s);
      assert SeparatorAt(text, |s|);
      FirstUnique(text, |s|, FirstCut(text));
      assert text[..|s|] == s && [s] + path[1..] == path;
    }
  }

  lemma SafeEnd(s: string)
    requires NoSeparator(s) && !EndsInUnderscore(s)
    ensures NoSeparator(s + "_")
  {
    var t := s + "_";
    forall k: nat | k < |t| ensures !SeparatorAt(t, k) { assert k < |s| ==> !SeparatorAt(s, k); }
  }

  lemma {:induction false} SplitLowerCase(letters: Letters, text: string)
    requires LowerCase(letters, text)
    ensures AllLowerCase(letters, Split(text))
    decreases |text|
  {
    if !NoSeparator(text) { SplitLowerCase(letters, text[FirstCut(text)+2..]); }
  }

  /** Every unsafe path shares its variable with another path, and that one is safe. */
  lemma UnsafePathsCollide(letters: Letters, prefix: string, path: seq<string>) returns (twin: seq<string>)
    requires path != [] && !Safe(path)
    ensures twin != [] && Safe(twin) && twin != path && Encode(letters, prefix, twin) == Encode(letters, prefix, path)
    ensures KeepsMarks(letters) && AllLowerCase(letters, path) ==> AllLowerCase(letters, twin)
  {
    twin := Split(Join(path, SEPARATOR));
    SplitJoins(Join(path, SEPARATOR));
    if KeepsMarks(letters) && AllLowerCase(letters, path) {
      LowerCaseJoin(letters, path, SEPARATOR);
      SplitLowerCase(letters, Join(path, SEPARATOR));
    }
  }

  /** The variable `Encode(letters, prefix, path)` has no safe lower-case reading but `path`. */
  ghost predicate OnlySafeReading(letters: Letters, prefix: string, path: seq<string>)
    requires path != []
  {
    forall q: seq<string> ::
      q != [] && Safe(q) && AllLowerCase(letters, q) && Encode(letters, prefix, q) == Encode(letters, prefix, path) ==>
        q == path
  }

  /** A lower-case path is the only safe reading of its variable exactly when it is safe itself. */
  lemma OnlyReadingIffSafe(letters: Letters, prefix: string, path: seq<string>)
    requires path != [] && KeepsMarks(letters) && AllLowerCase(letters, path)
    ensures OnlySafeReading(letters, prefix, path) <==> Safe(path)
  {
    if Safe(path) {
      forall q: seq<string> | q != [] && Safe(q) && AllLowerCase(letters, q)
                              && Encode(letters, prefix, q) == Encode(letters, prefix, path)
        ensures q == path
      {
        EncodeInjective(letters, prefix, path, q);
      }
    } else {
      var twin := UnsafePathsCollide(letters, prefix, path);
    }
  }

  /** On safe lower-case paths, different paths have different variables. */
  lemma EncodeInjective(letters: Letters, prefix: string, p: seq<string>, q: seq<string>)
    requires p != [] && q != [] && Safe(p) && Safe(q) && KeepsMarks(letters)
    requires AllLowerCase(letters, p) && AllLowerCase(letters, q)
    requires Encode(letters, prefix, p) == Encode(letters, prefix, q)
    ensures p == q
  {
    var a, b := Join(p, SEPARATOR), Join(q, SEPARATOR);
    CancelPrefix(prefix, Mapped(letters.upper, a), Mapped(letters.upper, b));
    LowerCaseJoin(letters, p, SEPARATOR);
    LowerCaseJoin(letters, q, SEPARATOR);
    AllBackIff(letters, a);
    AllBackIff(letters, b);
    SplitOfJoin(p);
    SplitOfJoin(q);
  }

  // ---------------------------------------------------------------- the documented spelling

  /** The variable name the documentation of the prefix option gives: single underscores throughout. */
  function Documented(letters: Letters, envPrefix: string, path: seq<string>): string
    requires path != []
  {
    envPrefix + "_" + Mapped(letters.upper, Join(path, "_"))
  }

  lemma {:induction false} DottedLength(s: string)
    ensures |Dotted(s)| <= |s|
  {
    if s != "" { DottedLength(if SEPARATOR <= s then s[2..] else s[1..]); }
  }

  lemma {:induction false} JoinLengths(path: seq<string>, a: string, b: string)
    requires path != [] && |a| == |b|
    ensures |Join(path, a)| == |Join(path, b)|
  {
    if |path| > 1 { JoinLengths(path[1..], a, b); }
  }
}
