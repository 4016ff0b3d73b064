/** The line-oriented fallback of `tryLoadLabels` in ar-model/app.js, used when the
    label file is not JSON, e.g. a Python-style dictionary `{0: 'tench', 1: 'goldfish'}`
    written one entry per line. */
module LabelLines {
  import opened Wrappers
  import opened Text

  /** `text.split(/\r?\n/)`: the pieces between line breaks, a `\r` right before a
      `\n` belonging to the break. */
  function SplitLines(text: string): (lines: seq<string>)
    ensures lines != []
    ensures forall i :: 0 <= i < |lines| ==> '\n' !in lines[i]
    decreases |text|
  {
    match IndexOf(text, '\n')
    case None => [text]
    case Some(i) =>
      var piece := if i > 0 && text[i - 1] == '\r' then text[..i - 1] else text[..i];
      assert forall c :: c in piece ==> c in text[..i];
      [piece] + SplitLines(text[i + 1..])
  }

  /** Without carriage returns, joining the lines with `\n` gives the text back. */
  lemma {:induction false} SplitLinesJoin(text: string)
    requires '\r' !in text
    ensures Join(SplitLines(text), "\n") == text
    decreases |text|
  {
    match IndexOf(text, '\n')
    case None =>
    case Some(i) =>
      var rest := text[i + 1..];
      assert '\r' !in rest by {
        assert forall c :: c in rest ==> c in text;
      }
      SplitLinesJoin(rest);
      var lines := SplitLines(text);
      assert lines == [text[..i]] + SplitLines(rest);
      assert lines[1..] == SplitLines(rest);
      assert text == text[..i] + "\n" + rest;
  }

  /** `s` with every `\r\n` replaced by `\n`. */
  function CrlfToLf(s: string): (r: string)
    decreases |s|
  {
    if s == [] then []
    else if |s| >= 2 && s[0] == '\r' && s[1] == '\n' then "\n" + CrlfToLf(s[2..])
    else [s[0]] + CrlfToLf(s[1..])
  }

  /** Joining the lines with `\n` gives the text with each `\r\n` line break
      written as `\n`: every line break is consumed, whether or not a carriage
      return precedes it, and nothing else is lost. */
  lemma {:induction false} SplitLinesJoinCrlf(text: string)
    ensures Join(SplitLines(text), "\n") == CrlfToLf(text)
    decreases |text|
  {
    match IndexOf(text, '\n')
    case None =>
      CrlfOfLine(text);
    case Some(i) =>
      var rest := text[i + 1..];
      SplitLinesJoinCrlf(rest);
      var crlf := i > 0 && text[i - 1] == '\r';
      var piece := if crlf then text[..i - 1] else text[..i];
      SplitLinesAt(text, i, piece);
      JoinLines(piece, SplitLines(rest));
      LineBreakAt(text, i, crlf, piece, rest);
  }

  /** The first line is the text before the first line break. */
  lemma SplitLinesAt(text: string, i: nat, piece: string)
    requires IndexOf(text, '\n') == Some(i)
    requires piece == if i > 0 && text[i - 1] == '\r' then text[..i - 1] else text[..i]
    ensures SplitLines(text) == [piece] + SplitLines(text[i + 1..])
  {
  }

  lemma JoinLines(piece: string, more: seq<string>)
    requires more != []
    ensures Join([piece] + more, "\n") == piece + "\n" + Join(more, "\n")
  {
    assert ([piece] + more)[1..] == more;
  }

  /** Rewriting the first line break of the text. */
  lemma LineBreakAt(text: string, i: nat, crlf: bool, piece: string, rest: string)
    requires IndexOf(text, '\n') == Some(i)
    requires crlf == (i > 0 && text[i - 1] == '\r')
    requires piece == if crlf then text[..i - 1] else text[..i]
    requires rest == text[i + 1..]
    ensures CrlfToLf(text) == piece + "\n" + CrlfToLf(rest)
  {
    assert '\n' !in piece by {
      assert forall c :: c in piece ==> c in text[..i];
    }
    if crlf {
      assert text == piece + "\r\n" + rest;
      CrlfAppendCrlf(piece, rest);
    } else {
      assert text == piece + "\n" + rest;
      CrlfAppendLf(piece, rest);
    }
  }

  lemma {:induction false} CrlfOfLine(p: string)
    requires '\n' !in p
    ensures CrlfToLf(p) == p
  {
    if p != [] {
      assert '\n' !in p[1..] by {
        assert forall c :: c in p[1..] ==> c in p;
      }
      CrlfOfLine(p[1..]);
    }
  }

  lemma {:induction false} CrlfAppendLf(p: string, rest: string)
    requires '\n' !in p && (p == [] || p[|p| - 1] != '\r')
    ensures CrlfToLf(p + "\n" + rest) == p + "\n" + CrlfToLf(rest)
  {
    var s := p + "\n" + rest;
    if p == [] {
      assert s == "\n" + rest;
      assert s[1..] == rest;
    } else {
      assert s[0] == p[0];
      assert |p| > 1 ==> s[1] == p[1];
      assert s[1..] == p[1..] + "\n" + rest;
      assert '\n' !in p[1..] by {
        assert forall c :: c in p[1..] ==> c in p;
      }
      CrlfAppendLf(p[1..], rest);
    }
  }

  lemma {:induction false} CrlfAppendCrlf(p: string, rest: string)
    requires '\n' !in p
    ensures CrlfToLf(p + "\r\n" + rest) == p + "\n" + CrlfToLf(rest)
  {
    var s := p + "\r\n" + rest;
    if p == [] {
      assert s == "\r\n" + rest;
      assert s[2..] == rest;
    } else {
      assert s[0] == p[0];
      assert s[1] == if |p| > 1 then p[1] else '\r';
      assert s[1..] == p[1..] + "\r\n" + rest;
      assert '\n' !in p[1..] by {
        assert forall c :: c in p[1..] ==> c in p;
      }
      CrlfAppendCrlf(p[1..], rest);
    }
  }

  /** The position of the first `c` in `s`, as `indexOf` finds it (`None` for -1). */
  function IndexOf(s: string, c: char): (r: Option<nat>)
    ensures r.None? <==> c !in s
    ensures r.Some? ==> r.value < |s| && s[r.value] == c && c !in s[..r.value]
  {
    if s == [] then None
    else if s[0] == c then Some(0)
    else match IndexOf(s[1..], c)
      case None => None
      case Some(i) =>
        assert s[..i + 1] == [s[0]] + s[1..][..i];
        Some(i + 1)
  }

  /** `s.replace(/[^0-9]/g, '')`: the ASCII digits of `s`, in order. */
  function DigitsOf(s: string): (r: string)
    ensures AllDigits(r) && |r| <= |s|
    ensures r == [] <==> forall i :: 0 <= i < |s| ==> !IsDigit(s[i])
    ensures AllDigits(s) ==> r == s
  {
    if s == [] then []
    else
      assert forall i :: 1 <= i < |s| ==> s[i] == s[1..][i - 1];
      (if IsDigit(s[0]) then [s[0]] else []) + DigitsOf(s[1..])
  }

  /** The digits of a text are those of its first part followed by those of the
      rest: with `DigitsOf`'s contract, the key text is exactly the digits before
      the colon, in their order. */
  lemma {:induction false} DigitsOfAppend(a: string, b: string)
    ensures DigitsOf(a + b) == DigitsOf(a) + DigitsOf(b)
  {
    if a == [] {
      assert a + b == b;
    } else {
      assert (a + b)[1..] == a[1..] + b;
      DigitsOfAppend(a[1..], b);
    }
  }

  /** `s.slice(1, -1)`: `s` without its first and last characters. */
  function Unwrap(s: string): string
  {
    if |s| >= 2 then s[1..|s| - 1] else ""
  }

  predicate WrappedIn(s: string, q: char) {
    |s| > 0 && s[0] == q && s[|s| - 1] == q
  }

  /** Drop one trailing `c` and trim again; anything else is left alone. */
  function DropLast(t: string, c: char): (r: string)
    ensures |r| <= |t|
    ensures t == [] || t[|t| - 1] != c ==> r == t
    ensures forall x :: x in r ==> x in t
  {
    if |t| > 0 && t[|t| - 1] == c then
      assert forall x :: x in t[..|t| - 1] ==> x in t;
      Trim(t[..|t| - 1])
    else t
  }

  /** Strip one pair of matching single or double wrapping quotes. */
  function Unquote(t: string): (r: string)
    ensures |r| <= |t|
    ensures !WrappedIn(t, '\'') && !WrappedIn(t, '"') ==> r == t
    ensures forall x :: x in r ==> x in t
  {
    if WrappedIn(t, '\'') || WrappedIn(t, '"') then
      assert forall x :: x in Unwrap(t) ==> x in t;
      Unwrap(t)
    else t
  }

  /** The value text after the colon: trimmed, one trailing `,` removed and trimmed,
      one trailing `}` removed and trimmed, then one pair of matching single or
      double quotes removed. */
  function CleanValue(raw: string): (v: string)
    ensures |v| <= |raw|
    ensures forall c :: c in v ==> c in raw
  {
    Unquote(DropLast(DropLast(Trim(raw), ','), '}'))
  }

  /** One line as the loop body reads it: `None` for a line the loop skips, otherwise
      the numeric key and the value stored under it. */
  function ParseLine(line: string): (r: Option<(nat, string)>)
    ensures ':' !in line ==> r.None?
    ensures r.Some? ==> |r.value.1| < |line| && forall c :: c in r.value.1 ==> c in line
  {
    match IndexOf(line, ':')
    case None => None
    case Some(idx) => ParseAfterColon(line, idx)
  }

  /** The line read around its first colon, at `idx`. */
  function ParseAfterColon(line: string, idx: nat): Option<(nat, string)>
    requires idx < |line|
  {
    var keyText := DigitsOf(line[..idx]);
    if keyText == [] then None
    else Some((DigitsValue(keyText), CleanValue(line[idx + 1..])))
  }

  /** A line whose first colon is at `i` is skipped exactly when no digit precedes
      it; otherwise its key is the number the digits before the colon spell, and its
      value is the cleaned text after the colon. */
  lemma ParseLineAt(line: string, i: nat)
    requires i < |line| && line[i] == ':' && ':' !in line[..i]
    ensures ParseLine(line).None? <==> forall j :: 0 <= j < i ==> !IsDigit(line[j])
    ensures ParseLine(line).Some? ==>
              ParseLine(line).value == (DigitsValue(DigitsOf(line[..i])), CleanValue(line[i + 1..]))
  {
    FirstIndex(line, ':', i);
    ParseLineSkipsAt(line, i);
    ParseLineReadsAt(line, i);
    NoDigitsBefore(line, i);
  }

  lemma ParseLineSkipsAt(line: string, i: nat)
    requires IndexOf(line, ':') == Some(i)
    ensures ParseLine(line).None? <==> DigitsOf(line[..i]) == []
  {
  }

  lemma ParseLineReadsAt(line: string, i: nat)
    requires IndexOf(line, ':') == Some(i)
    ensures ParseLine(line).Some? ==>
              ParseLine(line).value == (DigitsValue(DigitsOf(line[..i])), CleanValue(line[i + 1..]))
  {
    assert ParseLine(line) == ParseAfterColon(line, i);
  }

  lemma FirstIndex(s: string, c: char, i: nat)
    requires i < |s| && s[i] == c && c !in s[..i]
    ensures IndexOf(s, c) == Some(i)
  {
    var j := IndexOf(s, c).value;
    assert forall k :: 0 <= k < i ==> s[..i][k] == s[k];
    assert forall k :: 0 <= k < j ==> s[..j][k] == s[k];
  }

  lemma NoDigitsBefore(s: string, i: nat)
    requires i <= |s|
    ensures DigitsOf(s[..i]) == [] <==> forall j :: 0 <= j < i ==> !IsDigit(s[j])
  {
    assert forall j :: 0 <= j < i ==> s[..i][j] == s[j];
  }

  /** Array indices stop at 2^32 - 2; a larger key names an ordinary property, which
      neither lengthens the array nor survives `filter`. */
  const ArrayIndexLimit: nat := 0xFFFF_FFFF

  /** The elements of a sparse JavaScript array of strings: the indices holding a
      value, and `length`, one past the largest of them. */
  datatype Sparse = Sparse(elems: map<nat, string>, length: nat)
  {
    ghost predicate Valid() {
      && length <= ArrayIndexLimit
      && (forall k :: k in elems ==> k < length)
      && (length == 0 || length - 1 in elems)
    }
  }

  /** `parsed[key] = value`. */
  function Store(a: Sparse, key: nat, value: string): (b: Sparse)
    requires a.Valid()
    ensures b.Valid()
    ensures key < ArrayIndexLimit ==> b.elems == a.elems[key := value]
    ensures key >= ArrayIndexLimit ==> b == a
  {
    if key < ArrayIndexLimit then
      Sparse(a.elems[key := value], if key < a.length then a.length else key + 1)
    else a
  }

  /** What one parsed line does to the array. */
  function StoreEntry(a: Sparse, e: Option<(nat, string)>): (b: Sparse)
    requires a.Valid()
    ensures b.Valid()
  {
    match e
    case None => a
    case Some((key, value)) => Store(a, key, value)
  }

  /** The lines as the loop body reads them. */
  function ParseLines(lines: seq<string>): (es: seq<Option<(nat, string)>>)
    ensures |es| == |lines| && forall i :: 0 <= i < |lines| ==> es[i] == ParseLine(lines[i])
  {
    seq(|lines|, i requires 0 <= i < |lines| => ParseLine(lines[i]))
  }

  /** The array after the loop has seen the lines parsed as `es`. */
  function Table(es: seq<Option<(nat, string)>>): (a: Sparse)
    ensures a.Valid()
  {
    if es == [] then Sparse(map[], 0)
    else StoreEntry(Table(es[..|es| - 1]), es[|es| - 1])
  }

  lemma TableSnoc(es: seq<Option<(nat, string)>>, n: nat)
    requires n < |es|
    ensures Table(es[..n + 1]) == StoreEntry(Table(es[..n]), es[n])
  {
    assert es[..n + 1][..n] == es[..n];
  }

  /** `parsed.filter(v => typeof v === 'string')` over the indices below `n`. */
  function CompactBelow(m: map<nat, string>, n: nat): (r: seq<string>)
    ensures |r| <= n
  {
    if n == 0 then [] else CompactBelow(m, n - 1) + (if n - 1 in m then [m[n - 1]] else [])
  }

  /** The indices below `n` that hold a value, ascending. */
  function PresentBelow(m: map<nat, string>, n: nat): (ks: seq<nat>)
    ensures forall i, j :: 0 <= i < j < |ks| ==> ks[i] < ks[j]
    ensures forall k :: k in ks <==> k in m && k < n
  {
    if n == 0 then []
    else
      var ks := PresentBelow(m, n - 1);
      assert forall i :: 0 <= i < |ks| ==> ks[i] in ks;
      ks + (if n - 1 in m then [n - 1] else [])
  }

  /** The compacted array lists, in ascending index order, exactly the values at the
      indices that hold one. */
  lemma {:induction false} CompactBelowLists(m: map<nat, string>, n: nat)
    ensures var ks := PresentBelow(m, n);
            |CompactBelow(m, n)| == |ks| &&
            forall i :: 0 <= i < |ks| ==> ks[i] in m && CompactBelow(m, n)[i] == m[ks[i]]
  {
    if n > 0 {
      CompactBelowLists(m, n - 1);
    }
  }

  /** The compacted array is empty exactly when no index holds a value. */
  lemma CompactEmpty(a: Sparse)
    requires a.Valid()
    ensures CompactBelow(a.elems, a.length) == [] <==> a.elems == map[]
  {
    CompactBelowLists(a.elems, a.length);
    if a.elems != map[] {
      var k :| k in a.elems;
      assert k in PresentBelow(a.elems, a.length);
    }
  }

  /** The loop body for one line: `continue` on a line without a colon or without a
      digit before it, otherwise `parsed[key] = val`. */
  method StoreParsedLine(parsed: map<nat, string>, length: nat, line: string)
      returns (parsed': map<nat, string>, length': nat)
    requires Sparse(parsed, length).Valid()
    ensures Sparse(parsed', length') == StoreEntry(Sparse(parsed, length), ParseLine(line))
  {
    parsed', length' := parsed, length;
    var idx := IndexOf(line, ':');
    if idx.None? {
      return;
    }
    var i := idx.value;
    var keyText := DigitsOf(line[..i]);
    if keyText == [] {
      return;
    }
    if DigitsValue(keyText) < ArrayIndexLimit {
      parsed' := parsed[DigitsValue(keyText) := CleanValue(line[i + 1..])];
      if DigitsValue(keyText) >= length {
        length' := DigitsValue(keyText) + 1;
      }
    }
  }

  /** The loop `for (const line of lines)` filling `parsed`. */
  method FillTable(lines: seq<string>) returns (parsed: map<nat, string>, length: nat)
    ensures Sparse(parsed, length) == Table(ParseLines(lines))
  {
    ghost var es := ParseLines(lines);
    parsed, length := map[], 0;
    var n := 0;
    assert es[..0] == [];
    while n < |lines|
      invariant 0 <= n <= |lines|
      invariant Table(es[..n]) == Sparse(parsed, length)
    {
      TableSnoc(es, n);
      parsed, length := StoreParsedLine(parsed, length, lines[n]);
      n := n + 1;
    }
    assert es[..|lines|] == es;
  }

  /** `parsed.filter(v => typeof v === 'string')`. */
  method Compact(parsed: map<nat, string>, length: nat) returns (compact: seq<string>)
    ensures compact == CompactBelow(parsed, length)
  {
    compact := [];
    var i := 0;
    while i < length
      invariant 0 <= i <= length
      invariant compact == CompactBelow(parsed, i)
    {
      if i in parsed {
        compact := compact + [parsed[i]];
      }
      i := i + 1;
    }
  }

  /** The fallback parse of the label file's text: split into lines, fill the
      sparse array, compact it. */
  method ParseLabelLines(text: string) returns (compact: seq<string>)
    ensures var a := Table(ParseLines(SplitLines(text))); compact == CompactBelow(a.elems, a.length)
  {
    var lines := SplitLines(text);
    var parsed, length := FillTable(lines);
    compact := Compact(parsed, length);
  }

  /** The parsed line stores its value under `key`. */
  predicate HasKey(e: Option<(nat, string)>, key: nat) {
    e.Some? && e.value.0 == key
  }

  /** The parsed line stores a value at an array index. */
  predicate StoresIndex(e: Option<(nat, string)>) {
    e.Some? && e.value.0 < ArrayIndexLimit
  }

  /** A later line with the same key overwrites an earlier one: the value stored under
      a key is the one from the last line carrying it. */
  lemma {:induction false} LastLineWins(es: seq<Option<(nat, string)>>, i: nat, key: nat, value: string)
    requires i < |es| && es[i] == Some((key, value)) && key < ArrayIndexLimit
    requires forall j :: i < j < |es| ==> !HasKey(es[j], key)
    ensures key in Table(es).elems && Table(es).elems[key] == value
  {
    var init := es[..|es| - 1];
    if i < |es| - 1 {
      assert forall j :: i < j < |init| ==> init[j] == es[j];
      LastLineWins(init, i, key, value);
    }
  }

  /** A key no line carries holds no value. */
  lemma {:induction false} AbsentKey(es: seq<Option<(nat, string)>>, key: nat)
    requires forall j :: 0 <= j < |es| ==> !HasKey(es[j], key)
    ensures key !in Table(es).elems
  {
    if es != [] {
      var init := es[..|es| - 1];
      assert forall j :: 0 <= j < |init| ==> init[j] == es[j];
      AbsentKey(init, key);
    }
  }

  /** The tolerant parse finds a table exactly when some line carries a key below the
      array-index limit. */
  lemma {:induction false} TableEmpty(es: seq<Option<(nat, string)>>)
    ensures Table(es).elems == map[] <==> forall j :: 0 <= j < |es| ==> !StoresIndex(es[j])
  {
    if es != [] {
      var init := es[..|es| - 1];
      assert forall j :: 0 <= j < |init| ==> init[j] == es[j];
      TableEmpty(init);
      var last := es[|es| - 1];
      if StoresIndex(last) {
        assert last.value.0 in Table(es).elems;
      }
    }
  }

  /** The fallback finds no labels (and the registry stays as it was) exactly when
      no line carries a key that is an array index. */
  lemma ParsedLabelsEmpty(text: string)
    ensures var lines := SplitLines(text);
            var a := Table(ParseLines(lines));
            CompactBelow(a.elems, a.length) == [] <==>
              forall j :: 0 <= j < |lines| ==> !StoresIndex(ParseLine(lines[j]))
  {
    var lines := SplitLines(text);
    var es := ParseLines(lines);
    TableEmpty(es);
    CompactEmpty(Table(es));
  }

  /** A quoted value followed by the separators the format allows, with any white
      space around it, reads back as the bare value: ` 'tench',` and `"goldfish"} `
      give `tench` and `goldfish`. */
  lemma CleanQuotedValue(lead: string, q: char, w: string, tail: string, trail: string)
    requires AllSpace(lead)
    requires AllSpace(trail)
    requires q == '\'' || q == '"'
    requires tail == "" || tail == "," || tail == "}" || tail == "},"
    ensures CleanValue(lead + [q] + w + [q] + tail + trail) == w
  {
    var core := [q] + w + [q] + tail;
    assert lead + [q] + w + [q] + tail + trail == lead + core + trail;
    assert core[|core| - 1] == if tail == "" then q else tail[|tail| - 1];
    TrimPadded(lead, core, trail);
    TrimKeeps(core);
    CleanOfTrimmed(lead + core + trail, core);
    CleanQuotedCore(q, w, tail);
  }

  /** Cleaning starts with `trim`, so texts that trim alike clean alike. */
  lemma CleanOfTrimmed(raw: string, core: string)
    requires Trim(raw) == Trim(core)
    ensures CleanValue(raw) == CleanValue(core)
  {
  }

  lemma CleanQuotedCore(q: char, w: string, tail: string)
    requires q == '\'' || q == '"'
    requires tail == "" || tail == "," || tail == "}" || tail == "},"
    ensures CleanValue([q] + w + [q] + tail) == w
  {
    var quoted := [q] + w + [q];
    UnquoteOf(q, w);
    QuotedShape(q, w);
    if tail == "" {
      assert quoted + tail == quoted;
      QuotedKept(q, w);
    } else if tail == "," {
      CleanDropsComma(quoted);
    } else if tail == "}" {
      CleanDropsBrace(quoted);
    } else {
      assert quoted + tail == quoted + "}" + ",";
      CleanDropsBoth(quoted);
    }
  }

  lemma QuotedShape(q: char, w: string)
    requires q == '\'' || q == '"'
    ensures var quoted := [q] + w + [q];
            |quoted| >= 2 && !IsSpace(quoted[0]) && !IsSpace(quoted[|quoted| - 1]) && quoted[|quoted| - 1] != '}'
  {
  }

  /** Cleaning leaves a quoted value without separators as it is, up to the quotes. */
  lemma QuotedKept(q: char, w: string)
    requires q == '\'' || q == '"'
    ensures var quoted := [q] + w + [q];
            Trim(quoted) == quoted && DropLast(quoted, ',') == quoted && DropLast(quoted, '}') == quoted
  {
    TrimKeeps([q] + w + [q]);
  }

  lemma CleanDropsComma(quoted: string)
    requires |quoted| >= 2 && !IsSpace(quoted[0]) && !IsSpace(quoted[|quoted| - 1]) && quoted[|quoted| - 1] != '}'
    ensures CleanValue(quoted + ",") == Unquote(quoted)
  {
    CommaSteps(quoted);
    BraceKept(quoted);
    CleanSteps(quoted + ",", quoted + ",", quoted, quoted);
  }

  lemma CommaSteps(quoted: string)
    requires |quoted| >= 2 && !IsSpace(quoted[0]) && !IsSpace(quoted[|quoted| - 1]) && quoted[|quoted| - 1] != '}'
    ensures Trim(quoted + ",") == quoted + "," && DropLast(quoted + ",", ',') == quoted
  {
    AppendedDropped(quoted, ',');
  }

  lemma CleanDropsBrace(quoted: string)
    requires |quoted| >= 2 && !IsSpace(quoted[0]) && !IsSpace(quoted[|quoted| - 1])
    ensures CleanValue(quoted + "}") == Unquote(quoted)
  {
    BraceSteps(quoted);
    CommaKept(quoted);
    CleanSteps(quoted + "}", quoted + "}", quoted + "}", quoted);
  }

  lemma BraceSteps(quoted: string)
    requires |quoted| >= 2 && !IsSpace(quoted[0]) && !IsSpace(quoted[|quoted| - 1])
    ensures Trim(quoted + "}") == quoted + "}" && DropLast(quoted + "}", '}') == quoted
  {
    AppendedDropped(quoted, '}');
  }

  /** Cleaning is the three steps in order: trim, drop a comma, drop a brace. */
  lemma CleanSteps(raw: string, t1: string, t2: string, t3: string)
    requires Trim(raw) == t1 && DropLast(t1, ',') == t2 && DropLast(t2, '}') == t3
    ensures CleanValue(raw) == Unquote(t3)
  {
  }

  /** A string that does not end with a brace keeps its end. */
  lemma BraceKept(quoted: string)
    requires |quoted| >= 2 && quoted[|quoted| - 1] != '}'
    ensures DropLast(quoted, '}') == quoted
  {
  }

  /** A string ending with a brace has no comma to drop. */
  lemma CommaKept(quoted: string)
    ensures DropLast(quoted + "}", ',') == quoted + "}"
  {
    assert (quoted + "}")[|quoted|] == '}';
  }

  lemma CleanDropsBoth(quoted: string)
    requires |quoted| >= 2 && !IsSpace(quoted[0]) && !IsSpace(quoted[|quoted| - 1])
    ensures CleanValue(quoted + "}" + ",") == Unquote(quoted)
  {
    BothSteps(quoted);
    BraceSteps(quoted);
  }

  lemma BothSteps(quoted: string)
    requires |quoted| >= 2 && !IsSpace(quoted[0]) && !IsSpace(quoted[|quoted| - 1])
    ensures Trim(quoted + "}" + ",") == quoted + "}" + "," && DropLast(quoted + "}" + ",", ',') == quoted + "}"
  {
    AppendedDropped(quoted + "}", ',');
  }

  /** A trimmed string with a visible character appended is already trimmed, and
      dropping that character gives the string back. */
  lemma AppendedDropped(s: string, c: char)
    requires s != [] && !IsSpace(s[0]) && !IsSpace(s[|s| - 1]) && !IsSpace(c)
    ensures Trim(s + [c]) == s + [c] && DropLast(s + [c], c) == s
  {
    TrimKeeps(s + [c]);
    DropLastOf(s, c);
  }

  lemma UnquoteOf(q: char, w: string)
    requires q == '\'' || q == '"'
    ensures Unquote([q] + w + [q]) == w
  {
    var quoted := [q] + w + [q];
    assert WrappedIn(quoted, q);
    assert quoted[1..|quoted| - 1] == w;
  }

  lemma TrimKeeps(s: string)
    requires s != [] && !IsSpace(s[0]) && !IsSpace(s[|s| - 1])
    ensures Trim(s) == s
  {
  }

  lemma DropLastOf(s: string, c: char)
    requires s != [] && !IsSpace(s[0]) && !IsSpace(s[|s| - 1])
    ensures DropLast(s + [c], c) == s
  {
    assert (s + [c])[..|s|] == s;
  }
}
