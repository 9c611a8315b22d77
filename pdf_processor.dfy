/** PDF intake: the size limit, the assembly of the pages' text, the
    normalisation of that text, and the naming of uploaded files. The PDF
    reader is a parameter: either the exception opening the document raised,
    or per page the extracted text or the exception extracting it raised. */
module PdfProcessing {
  import opened Common
  import opened Text
  import AppConfig

  // ---------------------------------------------------------------- cleaning

  /** The stripped non-empty lines among the first `n` lines, in order. */
  function CleanLinesUpTo(lines: seq<string>, n: nat): seq<string>
    requires n <= |lines|
  {
    if n == 0 then []
    else
      var line := Strip(lines[n - 1]);
      if line == [] then CleanLinesUpTo(lines, n - 1) else CleanLinesUpTo(lines, n - 1) + [line]
  }

  /** The stripped non-empty lines, in order. */
  function CleanLines(lines: seq<string>): seq<string>
  {
    CleanLinesUpTo(lines, |lines|)
  }

  /** `_clean_text`: the stripped non-empty lines joined by single newlines,
      with every run of spaces collapsed to one. */
  function Cleaned(text: string): string
  {
    if text == "" then "" else Collapse(Join(CleanLines(Split(text, '\n')), "\n"))
  }

  /** A line of cleaned text: non-empty, no surrounding whitespace, no
      newline, no run of spaces. */
  predicate GoodLine(line: string)
  {
    line != [] && !IsSpace(line[0]) && !IsSpace(line[|line| - 1]) && '\n' !in line && NoDoubleSpace(line)
  }

  /** The lines of the cleaned text. */
  function CleanedLines(text: string): seq<string>
  {
    CollapseEach(CleanLines(Split(text, '\n')))
  }

  /** A stripped piece of a newline-free line holds no newline and does not
      start or end with whitespace. */
  lemma StrippedLine(line: string)
    requires '\n' !in line && Strip(line) != []
    ensures '\n' !in Strip(line) && !IsSpace(Strip(line)[0]) && !IsSpace(Strip(line)[|Strip(line)| - 1])
  {
    StripEmptyIffBlank(line);
    var a := SkipSpace(line, 0);
    assert Strip(line) == line[a..SkipSpaceBack(line, a, |line|)];
    forall k | 0 <= k < |Strip(line)|
      ensures Strip(line)[k] != '\n'
    {
      assert Strip(line)[k] == line[a + k];
    }
  }

  /** The kept lines of newline-free lines are stripped, non-empty and
      newline-free. */
  lemma {:induction false} CleanLinesUpToShape(lines: seq<string>, n: nat)
    requires n <= |lines|
    requires forall i :: 0 <= i < |lines| ==> '\n' !in lines[i]
    ensures forall i :: 0 <= i < |CleanLinesUpTo(lines, n)| ==>
      var l := CleanLinesUpTo(lines, n)[i];
      l != [] && '\n' !in l && !IsSpace(l[0]) && !IsSpace(l[|l| - 1])
  {
    if n > 0 {
      CleanLinesUpToShape(lines, n - 1);
      if Strip(lines[n - 1]) != [] {
        StrippedLine(lines[n - 1]);
      }
    }
  }

  /** Collapsing runs of spaces keeps a kept line a good line. */
  lemma CollapsedLineGood(line: string)
    requires line != [] && '\n' !in line && !IsSpace(line[0]) && !IsSpace(line[|line| - 1])
    ensures GoodLine(Collapse(line))
  {
    CollapseAbsent(line, '\n');
  }

  /** The lines of the cleaned text are good lines, and the cleaned text is
      those lines joined by newlines. */
  lemma CleanedIsGoodLines(text: string)
    ensures forall i :: 0 <= i < |CleanedLines(text)| ==> GoodLine(CleanedLines(text)[i])
    ensures Cleaned(text) == Join(CleanedLines(text), "\n") || (text == "" && Cleaned(text) == "")
  {
    var lines := Split(text, '\n');
    CleanLinesUpToShape(lines, |lines|);
    var kept := CleanLines(lines);
    forall i | 0 <= i < |kept|
      ensures GoodLine(CollapseEach(kept)[i])
    {
      CollapsedLineGood(kept[i]);
    }
    if text != "" {
      CollapseJoinLines(kept);
    }
  }

  /** Good lines are kept as they are by every step of the cleaning. */
  lemma {:induction false} CleanLinesUpToGood(lines: seq<string>, n: nat)
    requires n <= |lines|
    requires forall i :: 0 <= i < |lines| ==> GoodLine(lines[i])
    ensures CleanLinesUpTo(lines, n) == lines[..n]
  {
    if n > 0 {
      CleanLinesUpToGood(lines, n - 1);
      StripStable(lines[n - 1]);
      assert lines[..n] == lines[..n - 1] + [lines[n - 1]];
    }
  }

  /** Collapsing good lines changes nothing. */
  lemma {:induction false} CollapseEachGood(lines: seq<string>)
    requires forall i :: 0 <= i < |lines| ==> GoodLine(lines[i])
    ensures CollapseEach(lines) == lines
  {
    forall i | 0 <= i < |lines|
      ensures CollapseEach(lines)[i] == lines[i]
    {
      CollapseStable(lines[i]);
    }
  }

  /** Text made of good lines is already clean. */
  lemma CleanedOfGoodLines(lines: seq<string>)
    requires |lines| >= 1
    requires forall i :: 0 <= i < |lines| ==> GoodLine(lines[i])
    ensures Cleaned(Join(lines, "\n")) == Join(lines, "\n")
  {
    var t := Join(lines, "\n");
    assert t != "" by {
      JoinStartsWithFirst(lines, "\n");
    }
    SplitJoin(lines, '\n');
    assert Split(t, '\n') == lines;
    CleanLinesUpToGood(lines, |lines|);
    assert lines[..|lines|] == lines;
    CollapseJoinLines(lines);
    CollapseEachGood(lines);
  }

  /** A join begins with its first part. */
  lemma JoinStartsWithFirst(parts: seq<string>, sep: string)
    requires |parts| >= 1
    ensures |Join(parts, sep)| >= |parts[0]|
    ensures Join(parts, sep)[..|parts[0]|] == parts[0]
  {
  }

  /** `_clean_text` output: empty, or non-empty lines without surrounding
      whitespace or runs of spaces, which are the input's non-blank lines in
      their order, each stripped and collapsed. */
  lemma CleanedShape(text: string)
    ensures Cleaned(text) == "" || (
      |CleanedLines(text)| >= 1 &&
      Split(Cleaned(text), '\n') == CleanedLines(text) &&
      CleanedLines(text) == CollapseEach(CleanLines(Split(text, '\n'))) &&
      forall i :: 0 <= i < |CleanedLines(text)| ==> GoodLine(CleanedLines(text)[i]))
  {
    CleanedIsGoodLines(text);
    var lines := CleanedLines(text);
    if Cleaned(text) != "" && |lines| >= 1 {
      SplitJoin(lines, '\n');
    }
  }

  /** `_clean_text` is idempotent. */
  lemma CleanedIdempotent(text: string)
    ensures Cleaned(Cleaned(text)) == Cleaned(text)
  {
    CleanedIsGoodLines(text);
    var lines := CleanedLines(text);
    if text != "" && |lines| >= 1 {
      CleanedOfGoodLines(lines);
    }
  }

  // ---------------------------------------------------------------- pages

  /** The texts of the pages among the first `n` that were extracted and are
      not blank, in page order. */
  function KeptPagesUpTo(pages: seq<Result<string>>, n: nat): seq<string>
    requires n <= |pages|
  {
    if n == 0 then []
    else if pages[n - 1].Ok? && Strip(pages[n - 1].value) != [] then KeptPagesUpTo(pages, n - 1) + [pages[n - 1].value]
    else KeptPagesUpTo(pages, n - 1)
  }

  /** `_extract_text_from_stream` for what the reader gives. */
  function FromPages(reader: Result<seq<Result<string>>>): Option<string>
  {
    if reader.Err? || |reader.value| == 0 then None
    else
      var kept := KeptPagesUpTo(reader.value, |reader.value|);
      if kept == [] then None else Some(Cleaned(Join(kept, "\n\n")))
  }

  /** The kept pages are exactly the extracted, non-blank pages, in page
      order: a page that raised or is blank is skipped and stops nothing. */
  lemma {:induction false} KeptPagesExact(pages: seq<Result<string>>, n: nat)
    requires n <= |pages|
    ensures |KeptPagesUpTo(pages, n)| <= n
    ensures forall t :: t in KeptPagesUpTo(pages, n) <==>
      exists i :: 0 <= i < n && pages[i].Ok? && pages[i].value == t && Strip(t) != []
  {
    if n > 0 {
      KeptPagesExact(pages, n - 1);
    }
  }

  /** A non-whitespace character of a text lies on a line that is not blank. */
  lemma {:induction false} SplitKeepsNonBlank(s: string, p: nat)
    requires p < |s| && !IsSpace(s[p])
    ensures exists q :: 0 <= q < |Split(s, '\n')| && !IsBlank(Split(s, '\n')[q])
    decreases |s|
  {
    var rest := Split(s[1..], '\n');
    var pieces := Split(s, '\n');
    if p == 0 {
      assert pieces[0] == [s[0]] + rest[0];
      assert pieces[0][0] == s[0];
    } else {
      assert s[1..][p - 1] == s[p];
      SplitKeepsNonBlank(s[1..], p - 1);
      var q :| 0 <= q < |rest| && !IsBlank(rest[q]);
      var k :| 0 <= k < |rest[q]| && !IsSpace(rest[q][k]);
      if s[0] == '\n' {
        assert pieces[q + 1] == rest[q];
      } else if q == 0 {
        assert pieces[0] == [s[0]] + rest[0];
        assert pieces[0][k + 1] == rest[0][k];
      } else {
        assert pieces[q] == rest[q];
      }
    }
  }

  /** A line that is not blank survives the cleaning. */
  lemma {:induction false} CleanLinesUpToNonEmpty(lines: seq<string>, n: nat, q: nat)
    requires q < n <= |lines| && !IsBlank(lines[q])
    ensures CleanLinesUpTo(lines, n) != []
  {
    StripEmptyIffBlank(lines[q]);
    if q < n - 1 {
      CleanLinesUpToNonEmpty(lines, n - 1, q);
    }
  }

  /** A text with a non-whitespace character cleans to a non-empty text. */
  lemma CleanedNonEmpty(text: string, p: nat)
    requires p < |text| && !IsSpace(text[p])
    ensures Cleaned(text) != ""
  {
    var lines := Split(text, '\n');
    SplitKeepsNonBlank(text, p);
    var q :| 0 <= q < |lines| && !IsBlank(lines[q]);
    CleanLinesUpToNonEmpty(lines, |lines|, q);
    CleanedIsGoodLines(text);
    JoinStartsWithFirst(CleanedLines(text), "\n");
  }

  /** `None` means a failed reader, no pages, or no page with text; otherwise
      the text is non-empty and already clean. */
  lemma FromPagesOutcome(reader: Result<seq<Result<string>>>)
    ensures FromPages(reader).None? <==>
      reader.Err? || forall i :: 0 <= i < |reader.value| ==> reader.value[i].Err? || Strip(reader.value[i].value) == []
    ensures FromPages(reader).Some? ==>
      FromPages(reader).value != "" && Cleaned(FromPages(reader).value) == FromPages(reader).value
  {
    if reader.Ok? {
      var pages := reader.value;
      KeptPagesExact(pages, |pages|);
      var kept := KeptPagesUpTo(pages, |pages|);
      if kept != [] {
        var t := kept[0];
        assert t in kept;
        var full := Join(kept, "\n\n");
        StripEmptyIffBlank(t);
        var p :| 0 <= p < |t| && !IsSpace(t[p]);
        JoinStartsWithFirst(kept, "\n\n");
        assert full[p] == full[..|t|][p];
        CleanedNonEmpty(full, p);
        CleanedIdempotent(full);
      }
    }
  }

  // ---------------------------------------------------------------- names

  /** A character of Python's `\w` class, restricted to ASCII. */
  predicate IsWordChar(c: char)
  {
    ('a' <= c <= 'z') || ('A' <= c <= 'Z') || ('0' <= c <= '9') || c == '_'
  }

  /** A character `_sanitize_filename` keeps. */
  predicate Allowed(c: char)
  {
    IsWordChar(c) || c == '-' || c == '.'
  }

  /** `c.lower()` for an ASCII character. */
  function LowerAscii(c: char): char
  {
    if 'A' <= c <= 'Z' then (c as int + 32) as char else c
  }

  /** `s.lower().endswith('.pdf')`. */
  predicate HasPdfSuffix(s: string)
  {
    |s| >= 4 && s[|s| - 4] == '.' && LowerAscii(s[|s| - 3]) == 'p' &&
    LowerAscii(s[|s| - 2]) == 'd' && LowerAscii(s[|s| - 1]) == 'f'
  }

  /** `re.sub(r'[^\w\-_.]', '_', name)`. */
  function ReplaceDisallowed(name: string): (r: string)
  {
    seq(|name|, i requires 0 <= i < |name| => if Allowed(name[i]) then name[i] else '_')
  }

  /** `_sanitize_filename`. */
  function Sanitize(name: string): string
  {
    var s := ReplaceDisallowed(name);
    if HasPdfSuffix(s) then s else s + ".pdf"
  }

  /** A sanitized name has only allowed characters, ends in `.pdf` in any
      case, keeps every allowed character in place, grows only by the
      appended extension, and is its own sanitization. */
  lemma SanitizeShape(name: string)
    ensures var r := Sanitize(name);
      (forall i :: 0 <= i < |r| ==> Allowed(r[i])) &&
      HasPdfSuffix(r) &&
      (|r| == |name| || |r| == |name| + 4) &&
      (forall i :: 0 <= i < |name| ==> r[i] == (if Allowed(name[i]) then name[i] else '_')) &&
      (|r| == |name| + 4 <==> !HasPdfSuffix(ReplaceDisallowed(name)))
    ensures Sanitize(Sanitize(name)) == Sanitize(name)
  {
    var s := ReplaceDisallowed(name);
    var r := Sanitize(name);
    assert ReplaceDisallowed(r) == r;
  }

  /** A sanitized name ends in `.pdf`. */
  lemma SanitizedIsPdf(name: string)
    ensures HasPdfSuffix(Sanitize(name))
  {
  }

  /** The position of the last `c` in `s`, or -1 (`str.rfind`). */
  function RFind(s: string, c: char): (r: int)
    ensures -1 <= r < |s|
    ensures r >= 0 ==> s[r] == c
  {
    if s == [] then -1
    else if s[|s| - 1] == c then |s| - 1
    else RFind(s[..|s| - 1], c)
  }

  /** `PurePath(name).suffix`. */
  function Suffix(name: string): string
  {
    var i := RFind(name, '.');
    if 0 < i < |name| - 1 then name[i..] else ""
  }

  /** `PurePath(name).stem`. */
  function Stem(name: string): string
  {
    var i := RFind(name, '.');
    if 0 < i < |name| - 1 then name[..i] else name
  }

  /** The `n`-th alternative name tried when `name` is taken. */
  function Candidate(stem: string, n: nat, suffix: string): string
  {
    stem + "_" + NatToString(n) + suffix
  }

  /** The last dot of a string that ends with one dot followed by dot-free
      characters is that dot. */
  lemma {:induction false} RFindLastDot(x: string, y: string)
    requires y != [] && y[0] == '.' && '.' !in y[1..]
    ensures RFind(x + y, '.') == |x|
    decreases |y|
  {
    var s := x + y;
    if |y| > 1 {
      var y' := y[..|y| - 1];
      assert s[..|s| - 1] == x + y';
      assert y'[1..] == y[1..|y| - 1];
      assert s[|s| - 1] == y[|y| - 1] && y[|y| - 1] in y[1..];
      RFindLastDot(x, y');
    }
  }

  /** A string without dots has none to find. */
  lemma {:induction false} RFindNone(s: string)
    requires '.' !in s
    ensures RFind(s, '.') == -1
    decreases |s|
  {
    if s != [] {
      assert '.' !in s[..|s| - 1];
      RFindNone(s[..|s| - 1]);
    }
  }

  /** The decimal digits of a number hold no dot. */
  lemma NoDotInDigits(n: nat)
    ensures '.' !in NatToString(n) && '.' !in "_" + NatToString(n)
  {
    var d := NatToString(n);
    forall k | 0 <= k < |d|
      ensures d[k] != '.'
    {
    }
    assert ("_" + d)[0] == '_';
    forall k | 0 <= k < |"_" + d|
      ensures ("_" + d)[k] != '.'
    {
      if k > 0 {
        assert ("_" + d)[k] == d[k - 1];
      }
    }
  }

  /** The extension of a sanitized name is its last four characters, unless
      the name is just `.pdf`, which pathlib reads as a stem without suffix. */
  lemma PdfNameParts(name: string)
    requires HasPdfSuffix(name)
    ensures |name| > 4 ==> Suffix(name) == name[|name| - 4..] && Stem(name) == name[..|name| - 4]
    ensures |name| == 4 ==> Suffix(name) == "" && Stem(name) == name
  {
    var ext := name[|name| - 4..];
    assert '.' !in ext[1..] by {
      assert ext[1..] == [name[|name| - 3], name[|name| - 2], name[|name| - 1]];
    }
    assert name == name[..|name| - 4] + ext;
    RFindLastDot(name[..|name| - 4], ext);
  }

  /** An alternative keeps a four-character extension as its suffix. */
  lemma LongCandidateSuffix(stem: string, n: nat, ext: string)
    requires |ext| == 4 && ext[0] == '.' && '.' !in ext[1..]
    ensures Suffix(Candidate(stem, n, ext)) == ext
  {
    var tail := "_" + NatToString(n);
    var c := Candidate(stem, n, ext);
    assert c == (stem + tail) + ext;
    RFindLastDot(stem + tail, ext);
    assert c[|stem + tail|..] == ext;
  }

  /** An alternative to the name `.pdf` has no suffix either. */
  lemma ShortCandidateSuffix(name: string, n: nat)
    requires HasPdfSuffix(name) && |name| == 4
    ensures Suffix(Candidate(name, n, "")) == ""
  {
    NoDotInDigits(n);
    var tail := "_" + NatToString(n);
    var c := Candidate(name, n, "");
    assert c == [] + (name + tail);
    assert '.' !in name[1..] by {
      assert name[1..] == [name[1], name[2], name[3]];
    }
    assert (name + tail)[1..] == name[1..] + tail;
    RFindLastDot([], name + tail);
  }

  /** For a sanitized name, every alternative keeps the name's suffix. */
  lemma CandidateSuffix(name: string, n: nat)
    requires HasPdfSuffix(name)
    ensures Suffix(Candidate(Stem(name), n, Suffix(name))) == Suffix(name)
  {
    PdfNameParts(name);
    if |name| > 4 {
      var ext := name[|name| - 4..];
      assert ext[1..] == [name[|name| - 3], name[|name| - 2], name[|name| - 1]];
      LongCandidateSuffix(Stem(name), n, ext);
    } else {
      ShortCandidateSuffix(name, n);
    }
  }

  /** Alternatives for different counters differ. */
  lemma CandidateInjective(stem: string, a: nat, b: nat, suffix: string)
    requires Candidate(stem, a, suffix) == Candidate(stem, b, suffix)
    ensures a == b
  {
    var ca, cb := Candidate(stem, a, suffix), Candidate(stem, b, suffix);
    var k := |stem| + 1;
    assert |NatToString(a)| == |NatToString(b)|;
    assert ca[k..k + |NatToString(a)|] == NatToString(a);
    assert cb[k..k + |NatToString(b)|] == NatToString(b);
    NatToStringInjective(a, b);
  }

  /** The `j`-th name `save_uploaded_file` tries for the sanitized `name`:
      the name itself first, then `stem_j.suffix`. */
  function Attempt(name: string, j: nat): string
  {
    if j == 0 then name else Candidate(Stem(name), j, Suffix(name))
  }

  /** The first `n` names of the sequence `f`, as a set. */
  ghost function Tried(f: nat -> string, n: nat): set<string>
  {
    if n == 0 then {} else Tried(f, n - 1) + {f(n - 1)}
  }

  /** Each alternative is built from the stem and the suffix of the name
      tried before it. */
  lemma NextAttempt(name: string, n: nat, path: string, stem: string, next: string)
    requires HasPdfSuffix(name) && path == Attempt(name, n) && stem == Stem(name)
    requires next == Candidate(stem, n + 1, Suffix(path))
    ensures next == Attempt(name, n + 1)
  {
    if n > 0 {
      CandidateSuffix(name, n);
    }
  }

  /** Every name before the `n`-th is among the first `n`. */
  lemma {:induction false} TriedHas(f: nat -> string, n: nat, j: nat)
    requires j < n
    ensures f(j) in Tried(f, n)
  {
    if j < n - 1 {
      TriedHas(f, n - 1, j);
    }
  }

  /** A name that differs from each of the first `n` is not among them. */
  lemma {:induction false} TriedFresh(f: nat -> string, n: nat, x: string)
    requires forall j :: 0 <= j < n ==> f(j) != x
    ensures x !in Tried(f, n)
  {
    if n > 0 {
      TriedFresh(f, n - 1, x);
    }
  }

  /** Recording one more taken name brings the count closer to the number
      of taken names. */
  lemma GrowTried(tried: set<string>, path: string, existing: set<string>)
    requires tried <= existing && path in existing && path !in tried
    ensures tried + {path} <= existing
    ensures |tried| < |tried + {path}| <= |existing|
  {
    SubsetCard(tried + {path}, existing);
  }

  /** `path` is the first attempt for `name` that is not among `existing`. */
  ghost predicate FirstFree(name: string, existing: set<string>, path: string)
  {
    path !in existing &&
    exists n: nat :: path == Attempt(name, n) && forall j :: 0 <= j < n ==> Attempt(name, j) in existing
  }

  /** An attempt that is free after all earlier ones were taken is the
      first free one. */
  lemma FirstFreeAt(name: string, existing: set<string>, f: nat -> string, n: nat)
    requires forall j :: f(j) == Attempt(name, j)
    requires Tried(f, n) <= existing && Attempt(name, n) !in existing
    ensures FirstFree(name, existing, Attempt(name, n))
  {
    forall j | 0 <= j < n
      ensures Attempt(name, j) in existing
    {
      TriedHas(f, n, j);
    }
  }

  /** A name splits into its stem and its suffix. */
  lemma StemSuffixLength(name: string)
    ensures |Stem(name)| + |Suffix(name)| == |name|
  {
  }

  /** Different attempts give different names. */
  lemma AttemptsDistinct(name: string, a: nat, b: nat)
    requires a != b
    ensures Attempt(name, a) != Attempt(name, b)
  {
    StemSuffixLength(name);
    if a != 0 && b != 0 && Attempt(name, a) == Attempt(name, b) {
      CandidateInjective(Stem(name), a, b, Suffix(name));
    }
  }

  /** The next name to try has not been tried yet. */
  lemma AttemptNotTried(name: string, f: nat -> string, n: nat)
    requires forall j :: f(j) == Attempt(name, j)
    ensures Attempt(name, n) !in Tried(f, n)
  {
    forall j | 0 <= j < n
      ensures f(j) != Attempt(name, n)
    {
      AttemptsDistinct(name, j, n);
    }
    TriedFresh(f, n, Attempt(name, n));
  }

  // ---------------------------------------------------------------- processor

  /** `MAX_FILE_SIZE_MB * 1024 * 1024`. */
  function MaxFileSize(maxFileSizeMb: int): int
  {
    maxFileSizeMb * 1024 * 1024
  }

  class PdfProcessor {
    const maxFileSize: int

    constructor(config: AppConfig.Config)
      ensures maxFileSize == MaxFileSize(config.maxFileSizeMb)
    {
      maxFileSize := MaxFileSize(config.maxFileSizeMb);
    }

    /** `extract_text_from_file`: nothing for a missing file or one larger
        than the limit, otherwise the text of its pages. */
    method ExtractTextFromFile(fileExists: bool, size: int, reader: Result<seq<Result<string>>>) returns (text: Option<string>)
      ensures !fileExists || size > maxFileSize ==> text == None
      ensures fileExists && size <= maxFileSize ==> text == FromPages(reader)
    {
      if !fileExists {
        return None;
      }
      if size > maxFileSize {
        return None;
      }
      text := ExtractTextFromStream(reader);
    }

    /** `extract_text_from_uploaded_file`: nothing for an upload larger than
        the limit, otherwise the text of its pages. */
    method ExtractTextFromUploadedFile(size: int, reader: Result<seq<Result<string>>>) returns (text: Option<string>)
      ensures size > maxFileSize ==> text == None
      ensures size <= maxFileSize ==> text == FromPages(reader)
    {
      if size > maxFileSize {
        return None;
      }
      text := ExtractTextFromStream(reader);
    }

    /** `_extract_text_from_stream`: the non-blank page texts joined by a
        blank line, then cleaned; nothing for an unreadable document, one
        without pages, or one without any page text. */
    method ExtractTextFromStream(reader: Result<seq<Result<string>>>) returns (text: Option<string>)
      ensures text == FromPages(reader)
    {
      if reader.Err? {
        return None;
      }
      var pages := reader.value;
      if |pages| == 0 {
        return None;
      }
      var content: seq<string> := [];
      var i := 0;
      while i < |pages|
        invariant 0 <= i <= |pages|
        invariant content == KeptPagesUpTo(pages, i)
      {
        var page := pages[i];
        if page.Ok? && Strip(page.value) != [] {
          content := content + [page.value];
        }
        i := i + 1;
      }
      if content == [] {
        return None;
      }
      var full := CleanText(Join(content, "\n\n"));
      text := Some(full);
    }

    /** `_clean_text`. */
    method CleanText(text: string) returns (r: string)
      ensures r == Cleaned(text)
    {
      if text == "" {
        return "";
      }
      var lines := Split(text, '\n');
      var cleaned: seq<string> := [];
      var i := 0;
      while i < |lines|
        invariant 0 <= i <= |lines|
        invariant cleaned == CleanLinesUpTo(lines, i)
      {
        var line := Strip(lines[i]);
        if line != [] {
          cleaned := cleaned + [line];
        }
        i := i + 1;
      }
      r := Collapse(Join(cleaned, "\n"));
    }

    /** `save_uploaded_file`: the first of the sanitized name, `stem_1.suffix`,
        `stem_2.suffix`, … that is not taken; nothing when the file cannot be
        written. `existing` are the names already in the upload directory. */
    method SaveUploadedFile(uploadName: string, filename: Option<string>, existing: set<string>, written: bool)
      returns (saved: Option<string>)
      ensures saved.Some? <==> written
      ensures saved.Some? ==> saved.value !in existing
      ensures saved.Some? ==> FirstFree(Sanitize(if filename.Some? then filename.value else uploadName), existing, saved.value)
    {
      var name := Sanitize(if filename.Some? then filename.value else uploadName);
      SanitizedIsPdf(if filename.Some? then filename.value else uploadName);
      var path := name;
      var counter := 1;
      var stem := Stem(path);
      ghost var attempt: nat -> string := (j: nat) => Attempt(name, j);
      ghost var tried: set<string> := {};
      while path in existing
        invariant counter >= 1
        invariant path == Attempt(name, counter - 1)
        invariant tried == Tried(attempt, counter - 1) && tried <= existing
        decreases |existing| - |tried|
      {
        AttemptNotTried(name, attempt, counter - 1);
        GrowTried(tried, path, existing);
        tried := tried + {path};
        var next := Candidate(stem, counter, Suffix(path));
        NextAttempt(name, counter - 1, path, stem, next);
        path := next;
        counter := counter + 1;
      }
      FirstFreeAt(name, existing, attempt, counter - 1);
      if !written {
        return None;
      }
      saved := Some(path);
    }
  }
}
