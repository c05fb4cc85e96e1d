/**
 * String helpers with Python's semantics: lower/upper case of one character,
 * `str.lower`, `str.capitalize`, the substring test `sub in s`,
 * `str.split(sep)` and its inverse `sep.join(parts)`.
 *
 * Case mapping covers ASCII letters and the Russian Cyrillic alphabet
 * (the backend's data is in Russian); every other character is left alone.
 */
module Text {
  import opened Wrappers

  function LowerChar(c: char): char {
    if 'A' <= c <= 'Z' then (c as int + 32) as char
    else if '\U{0410}' <= c <= '\U{042F}' then (c as int + 32) as char   // А..Я -> а..я
    else if c == '\U{0401}' then '\U{0451}'                              // Ё -> ё
    else c
  }

  function UpperChar(c: char): char {
    if 'a' <= c <= 'z' then (c as int - 32) as char
    else if '\U{0430}' <= c <= '\U{044F}' then (c as int - 32) as char   // а..я -> А..Я
    else if c == '\U{0451}' then '\U{0401}'                              // ё -> Ё
    else c
  }

  /** `s.lower()`. The ensures only unfold the definition; what lower-casing promises is
      proved in `ToLowerLowers`. */
  function ToLower(s: string): (r: string)
    ensures |r| == |s|
    ensures forall i :: 0 <= i < |s| ==> r[i] == LowerChar(s[i])
  {
    seq(|s|, i requires 0 <= i < |s| => LowerChar(s[i]))
  }

  /** A capital letter of either alphabet. */
  predicate IsUpperChar(c: char) {
    'A' <= c <= 'Z' || '\U{0410}' <= c <= '\U{042F}' || c == '\U{0401}'
  }

  /** `lower()` leaves no capital letter, changes nothing in text without one, and is idempotent. */
  lemma ToLowerLowers(s: string)
    ensures forall i :: 0 <= i < |s| ==> !IsUpperChar(ToLower(s)[i])
    ensures (forall i :: 0 <= i < |s| ==> !IsUpperChar(s[i])) ==> ToLower(s) == s
    ensures ToLower(ToLower(s)) == ToLower(s)
  {
    forall i | 0 <= i < |s| ensures !IsUpperChar(ToLower(s)[i]) && LowerChar(ToLower(s)[i]) == ToLower(s)[i] {
      LowerCharLowers(s[i]);
    }
  }

  lemma LowerCharLowers(c: char)
    ensures !IsUpperChar(LowerChar(c))
    ensures LowerChar(LowerChar(c)) == LowerChar(c)
    ensures !IsUpperChar(c) ==> LowerChar(c) == c
  {
  }

  /** `s.capitalize()`: the first character upper-cased, all the others lower-cased. */
  function Capitalize(s: string): (r: string)
  {
    if s == [] then [] else [UpperChar(s[0])] + ToLower(s[1..])
  }

  /** Capitalizing keeps the length, touches only case, and is idempotent. */
  lemma CapitalizeShape(s: string)
    ensures |Capitalize(s)| == |s|
    ensures s != [] ==> Capitalize(s)[0] == UpperChar(s[0])
    ensures forall i :: 1 <= i < |s| ==> Capitalize(s)[i] == LowerChar(s[i])
    ensures Capitalize(Capitalize(s)) == Capitalize(s)
  {
    if s != [] {
      var c := Capitalize(s);
      assert c[1..] == ToLower(s[1..]);
    }
  }

  /** The first letter is upper-cased and every later one lower-cased, in either alphabet. */
  lemma CapitalizeExamples()
    ensures Capitalize("potato") == "Potato"
    ensures Capitalize("ONION") == "Onion"
    ensures Capitalize("\U{0441}\U{043E}\U{043B}\U{042C}") == "\U{0421}\U{043E}\U{043B}\U{044C}"   // "солЬ" -> "Соль"
  {
    CapitalizeShape("potato");
    CapitalizeShape("ONION");
    CapitalizeShape("\U{0441}\U{043E}\U{043B}\U{042C}");
  }

  /** `sub` occurs in `s` starting at index `i`. */
  predicate OccursAt(s: string, sub: string, i: nat) {
    i + |sub| <= |s| && s[i..i + |sub|] == sub
  }

  /** `sub in s` */
  predicate Contains(s: string, sub: string) {
    exists i: nat | i <= |s| :: OccursAt(s, sub, i)
  }

  /** Index of the first occurrence of a non-empty `sep` in `s` at or after `from`. */
  function FindFrom(s: string, sep: string, from: nat): (r: Option<nat>)
    requires |sep| > 0
    ensures r.Some? ==> from <= r.value && OccursAt(s, sep, r.value)
    ensures r.Some? ==> forall j: nat :: from <= j < r.value ==> !OccursAt(s, sep, j)
    ensures r.None? ==> forall j: nat :: from <= j ==> !OccursAt(s, sep, j)
    decreases |s| - from
  {
    if from + |sep| > |s| then None
    else if OccursAt(s, sep, from) then Some(from)
    else FindFrom(s, sep, from + 1)
  }

  /** Index of the first occurrence of a non-empty `sep` in `s` (`s.find(sep)`). */
  function Find(s: string, sep: string): (r: Option<nat>)
    requires |sep| > 0
    ensures r.Some? ==> OccursAt(s, sep, r.value)
    ensures r.Some? ==> forall j: nat :: j < r.value ==> !OccursAt(s, sep, j)
    ensures r.None? <==> !Contains(s, sep)
  {
    FindFrom(s, sep, 0)
  }

  /** `s.split(sep)` for a non-empty separator. */
  function Split(s: string, sep: string): (r: seq<string>)
    requires |sep| > 0
    ensures |r| >= 1
    decreases |s|
  {
    match Find(s, sep)
    case None => [s]
    case Some(i) => [s[..i]] + Split(s[i + |sep|..], sep)
  }

  /** `sep.join(parts)` */
  function Join(parts: seq<string>, sep: string): string {
    if parts == [] then []
    else if |parts| == 1 then parts[0]
    else parts[0] + sep + Join(parts[1..], sep)
  }

  /** A prefix of `s` that ends before the first occurrence of `sep` does not contain `sep`. */
  lemma PrefixBeforeFirst(s: string, sep: string, i: nat)
    requires |sep| > 0 && i <= |s|
    requires forall j: nat :: j < i ==> !OccursAt(s, sep, j)
    ensures !Contains(s[..i], sep)
  {
    forall j: nat ensures !OccursAt(s[..i], sep, j) {
      if j + |sep| <= i {
        assert s[..i][j..j + |sep|] == s[j..j + |sep|];
        assert !OccursAt(s, sep, j);
      }
    }
  }

  /** One step of `Split`: the piece before the first separator, then the split of the rest. */
  lemma SplitStep(s: string, sep: string, i: nat)
    requires |sep| > 0 && Find(s, sep) == Some(i)
    ensures s == s[..i] + sep + s[i + |sep|..]
    ensures Split(s, sep) == [s[..i]] + Split(s[i + |sep|..], sep)
    ensures Split(s, sep)[1..] == Split(s[i + |sep|..], sep)
  {
    var rest := s[i + |sep|..];
    assert s[i..i + |sep|] == sep;
    assert s == s[..i] + s[i..i + |sep|] + rest;
    assert Split(s, sep) == [s[..i]] + Split(rest, sep);
    assert ([s[..i]] + Split(rest, sep))[1..] == Split(rest, sep);
  }

  /** Splitting and joining again gives back the original string. */
  lemma {:induction false} SplitJoin(s: string, sep: string)
    requires |sep| > 0
    ensures Join(Split(s, sep), sep) == s
    decreases |s|
  {
    match Find(s, sep)
    case None =>
    case Some(i) =>
      var rest := s[i + |sep|..];
      SplitJoin(rest, sep);
      SplitStep(s, sep, i);
  }

  /** No piece of a split contains the separator. */
  lemma {:induction false} SplitPiecesClean(s: string, sep: string)
    requires |sep| > 0
    ensures forall k :: 0 <= k < |Split(s, sep)| ==> !Contains(Split(s, sep)[k], sep)
    decreases |s|
  {
    match Find(s, sep)
    case None =>
    case Some(i) =>
      var rest := s[i + |sep|..];
      SplitPiecesClean(rest, sep);
      SplitStep(s, sep, i);
      PrefixBeforeFirst(s, sep, i);
  }

  /** A separator whose first character does not occur again in it cannot
      overlap another occurrence of itself; `";base64,"` and `"/"` are such separators. */
  predicate NoSelfOverlap(sep: string) {
    |sep| > 0 && forall k :: 1 <= k < |sep| ==> sep[k] != sep[0]
  }

  /** Splitting `h + sep + p` where neither piece contains `sep` gives exactly `[h, p]`. */
  lemma SplitTwo(h: string, sep: string, p: string)
    requires NoSelfOverlap(sep)
    requires !Contains(h, sep) && !Contains(p, sep)
    ensures Split(h + sep + p, sep) == [h, p]
  {
    var s := h + sep + p;
    assert OccursAt(s, sep, |h|) by { assert s[|h|..|h| + |sep|] == sep; }
    forall j: nat | j < |h| ensures !OccursAt(s, sep, j) {
      NotBeforeHeader(h, sep, p, j);
    }
    assert Find(s, sep) == Some(|h|);
    assert s[..|h|] == h && s[|h| + |sep|..] == p;
    assert Find(p, sep).None?;
  }

  /** No occurrence of `sep` in `h + sep + p` starts inside `h`. */
  lemma NotBeforeHeader(h: string, sep: string, p: string, j: nat)
    requires NoSelfOverlap(sep)
    requires !Contains(h, sep) && j < |h|
    ensures !OccursAt(h + sep + p, sep, j)
  {
    var s := h + sep + p;
    if j + |sep| <= |h| {
      assert s[j..j + |sep|] == h[j..j + |sep|];
      assert !OccursAt(h, sep, j);
    } else {
      var k := |h| - j;
      assert s[|h|] == sep[0];
      assert j + |sep| <= |s| ==> s[j..j + |sep|][k] == s[|h|];
    }
  }

  /** The last piece of `s.split(sep)`. */
  function LastPiece(s: string, sep: string): string
    requires |sep| > 0
  {
    var parts := Split(s, sep);
    parts[|parts| - 1]
  }

  /** The text after the last `/` (`s.split('/')[-1]`). */
  function AfterLastSlash(s: string): string
  {
    LastPiece(s, "/")
  }

  lemma LastPieceStep(s: string, sep: string, i: nat)
    requires |sep| > 0 && Find(s, sep) == Some(i)
    ensures LastPiece(s, sep) == LastPiece(s[i + |sep|..], sep)
  {
    var tail := Split(s[i + |sep|..], sep);
    assert Split(s, sep) == [s[..i]] + tail;
    assert ([s[..i]] + tail)[|tail|] == tail[|tail| - 1];
  }

  /** An occurrence in a tail is an occurrence in the whole text, shifted by the tail's offset. */
  lemma OccursInTail(s: string, sub: string, offset: nat, k: nat)
    requires offset <= |s|
    ensures OccursAt(s[offset..], sub, k) <==> OccursAt(s, sub, offset + k)
  {
    if offset + k + |sub| <= |s| {
      assert s[offset..][k..k + |sub|] == s[offset + k..offset + k + |sub|];
    }
  }

  /** The last piece of a split ends the string, right after an occurrence of the separator unless it is the whole string. */
  lemma {:induction false} LastPieceIsSuffix(s: string, sep: string)
    requires |sep| > 0
    ensures |LastPiece(s, sep)| <= |s|
    ensures s[|s| - |LastPiece(s, sep)|..] == LastPiece(s, sep)
    ensures |LastPiece(s, sep)| < |s| ==>
              |LastPiece(s, sep)| + |sep| <= |s| && OccursAt(s, sep, |s| - |LastPiece(s, sep)| - |sep|)
    decreases |s|
  {
    match Find(s, sep)
    case None =>
      assert LastPiece(s, sep) == s;
      assert s[|s| - |s|..] == s;
    case Some(i) =>
      var rest := s[i + |sep|..];
      LastPieceIsSuffix(rest, sep);
      LastPieceStep(s, sep, i);
      SuffixAfterOccurrence(s, sep, i, LastPiece(s, sep));
  }

  /** A suffix of the text after an occurrence of `sep` at `i` is a suffix of the whole text, and
      the occurrence of `sep` before it carries over, or is the one at `i`. */
  lemma SuffixAfterOccurrence(s: string, sep: string, i: nat, last: string)
    requires OccursAt(s, sep, i)
    requires |last| <= |s| - i - |sep| && s[i + |sep|..][|s| - i - |sep| - |last|..] == last
    requires |last| < |s| - i - |sep| ==>
               |last| + |sep| <= |s| - i - |sep| && OccursAt(s[i + |sep|..], sep, |s| - i - |sep| - |last| - |sep|)
    ensures |last| <= |s| && s[|s| - |last|..] == last
    ensures |last| < |s| ==> |last| + |sep| <= |s| && OccursAt(s, sep, |s| - |last| - |sep|)
  {
    var rest := s[i + |sep|..];
    assert s[|s| - |last|..] == rest[|rest| - |last|..];
    if |last| < |rest| {
      OccursInTail(s, sep, i + |sep|, |rest| - |last| - |sep|);
    }
  }

  /** The extension taken from a header holds no `/` and ends the header, right after its last `/` if any. */
  lemma AfterLastSlashMeaning(s: string)
    ensures '/' !in AfterLastSlash(s)
    ensures |AfterLastSlash(s)| <= |s| && s[|s| - |AfterLastSlash(s)|..] == AfterLastSlash(s)
    ensures |AfterLastSlash(s)| < |s| ==> s[|s| - |AfterLastSlash(s)| - 1] == '/'
  {
    LastPieceIsSuffix(s, "/");
    SplitPiecesClean(s, "/");
    var r := AfterLastSlash(s);
    var parts := Split(s, "/");
    assert r == parts[|parts| - 1];
    assert !Contains(r, "/");
    forall j | 0 <= j < |r| ensures r[j] != '/' {
      assert !OccursAt(r, "/", j);
      assert r[j..j + 1] == [r[j]];
    }
    if |r| < |s| {
      assert OccursAt(s, "/", |s| - |r| - 1);
      assert s[|s| - |r| - 1..|s| - |r|][0] == s[|s| - |r| - 1];
    }
  }
}
