/** Display names for class indices in ar-model/app.js: `prettifyLabel` and
    `getLabel`. */
module LabelNames {
  import opened Wrappers
  import opened Text

  /** Everything before the first comma (`s.split(',')[0]` when `s` has one). */
  function BeforeComma(s: string): (r: string)
    ensures |r| <= |s| && r == s[..|r|] && ',' !in r
    ensures ',' !in s ==> r == s
  {
    if s == [] || s[0] == ',' then [] else [s[0]] + BeforeComma(s[1..])
  }

  /** The longest prefix of `s` without white space. */
  function TakeWord(s: string): (w: string)
    ensures |w| <= |s| && w == s[..|w|] && NoSpace(w)
    ensures |w| < |s| ==> IsSpace(s[|w|])
    ensures s != [] && !IsSpace(s[0]) ==> w != []
  {
    if s == [] || IsSpace(s[0]) then [] else [s[0]] + TakeWord(s[1..])
  }

  /** Non-empty words without white space. */
  predicate ProperWords(ws: seq<string>) {
    forall i :: 0 <= i < |ws| ==> ws[i] != [] && NoSpace(ws[i])
  }

  lemma ConsProper(w: string, ws: seq<string>)
    requires w != [] && NoSpace(w) && ProperWords(ws)
    ensures ProperWords([w] + ws)
  {
  }

  /** The maximal runs of non-white-space characters of `s`, in order. */
  function Words(s: string): (ws: seq<string>)
    ensures ProperWords(ws)
    ensures ws != [] <==> TrimStart(s) != []
    decreases |s|
  {
    var t := TrimStart(s);
    if t == [] then [] else
      var w := TakeWord(t);
      var rest := Words(t[|w|..]);
      ConsProper(w, rest);
      [w] + rest
  }

  /** `t.split(/\s+/)` for an already trimmed `t`: an empty string splits into one
      empty part. */
  function SplitOnSpaceRuns(t: string): (parts: seq<string>)
    requires t == [] || !IsSpace(t[0])
    ensures parts != []
    ensures t == [] ==> parts == [""]
    ensures t != [] ==> parts == Words(t) && ProperWords(parts)
  {
    if t == [] then [""] else Words(t)
  }

  /** A WordNet synset identifier, the regular expression `^n\d{8}$`. */
  predicate IsSynsetId(w: string) {
    |w| == 9 && w[0] == 'n' && AllDigits(w[1..])
  }

  /** Single spaces between words and none at either end. */
  ghost predicate WellSpaced(s: string) {
    && (s != [] ==> !IsSpace(s[0]) && !IsSpace(s[|s| - 1]))
    && (forall i :: 0 <= i < |s| && IsSpace(s[i]) ==> s[i] == ' ')
    && (forall i, j :: 0 <= i < j < |s| && j == i + 1 ==> !IsSpace(s[i]) || !IsSpace(s[j]))
  }

  lemma WellSpacedCons(w: string, tail: string)
    requires w != [] && NoSpace(w) && tail != [] && WellSpaced(tail)
    ensures WellSpaced(w + " " + tail)
  {
    var s := w + " " + tail;
    forall i | 0 <= i < |s| && IsSpace(s[i]) ensures s[i] == ' ' {
      if i > |w| {
        assert s[i] == tail[i - |w| - 1];
      }
    }
    forall i, j | 0 <= i < j < |s| && j == i + 1 ensures !IsSpace(s[i]) || !IsSpace(s[j]) {
      if i > |w| {
        assert s[i] == tail[i - |w| - 1] && s[j] == tail[j - |w| - 1];
      } else if i == |w| {
        assert s[j] == tail[0];
      }
    }
  }

  /** Joining proper words with single spaces gives a well-spaced string. */
  lemma {:induction false} JoinWellSpaced(ws: seq<string>)
    requires ProperWords(ws)
    ensures WellSpaced(Join(ws, " "))
    ensures ws != [] ==> Join(ws, " ") != []
  {
    if |ws| > 1 {
      JoinWellSpaced(ws[1..]);
      WellSpacedCons(ws[0], Join(ws[1..], " "));
    }
  }

  predicate Avoids(ws: seq<string>, c: char) {
    forall i :: 0 <= i < |ws| ==> c !in ws[i]
  }

  lemma ConsAvoids(w: string, ws: seq<string>, c: char)
    requires c !in w && Avoids(ws, c)
    ensures Avoids([w] + ws, c)
  {
  }

  /** The words of a string hold only characters of that string. */
  lemma {:induction false} WordsAvoid(s: string, c: char)
    requires c !in s
    ensures Avoids(Words(s), c)
    decreases |s|
  {
    var t := TrimStart(s);
    if t != [] {
      var w := TakeWord(t);
      assert c !in w;
      WordsAvoid(t[|w|..], c);
      ConsAvoids(w, Words(t[|w|..]), c);
    }
  }

  lemma {:induction false} JoinAvoid(ws: seq<string>, c: char)
    requires c != ' ' && Avoids(ws, c)
    ensures c !in Join(ws, " ")
  {
    if |ws| > 1 {
      JoinAvoid(ws[1..], c);
    }
  }

  /** The words that are shown: all of them but a leading synset identifier. */
  function ShownWords(ws: seq<string>): seq<string> {
    if ws != [] && IsSynsetId(ws[0]) then ws[1..] else ws
  }

  /** `prettifyLabel(s)`: keep the text before the first comma, split it into
      words, drop a leading synset identifier and join the rest with single
      spaces. The result is the one well-spaced text with exactly those words
      (`JoinWordsOfWellSpaced`). */
  function PrettifyLabel(s: string): (r: string)
    ensures ',' !in r
    ensures WellSpaced(r)
    ensures Words(r) == ShownWords(Words(BeforeComma(s)))
  {
    WordsOfTrim(BeforeComma(s));
    DisplayWords(Trim(BeforeComma(s)))
  }

  /** The word-level half of `prettifyLabel`, applied to the trimmed text before
      the first comma. */
  function DisplayWords(head: string): (r: string)
    requires head == [] || !IsSpace(head[0])
    requires ',' !in head
    ensures ',' !in r
    ensures WellSpaced(r)
    ensures Words(r) == ShownWords(Words(head))
  {
    var parts := SplitOnSpaceRuns(head);
    var kept := if IsSynsetId(parts[0]) then parts[1..] else parts;
    if head == [] then
      assert kept == [""];
      assert TrimStart(head) == [];
      ""
    else
      assert ProperWords(kept);
      JoinWellSpaced(kept);
      WordsAvoid(head, ',');
      JoinAvoid(kept, ',');
      WordsOfJoin(kept);
      Join(kept, " ")
  }

  /** Splitting words joined with single spaces gives the words back. */
  lemma {:induction false} WordsOfJoin(ws: seq<string>)
    requires ProperWords(ws)
    ensures Words(Join(ws, " ")) == ws
  {
    if ws == [] {
      assert TrimStart("") == "";
    } else if |ws| == 1 {
      WordsOfSingle(ws[0]);
    } else {
      var w, j := ws[0], Join(ws[1..], " ");
      WordsOfJoin(ws[1..]);
      JoinStartsWithWord(ws[1..]);
      WordsOfSpaced(w, j);
      JoinStep(ws);
    }
  }

  lemma JoinStep(ws: seq<string>)
    requires |ws| > 1
    ensures Join(ws, " ") == ws[0] + " " + Join(ws[1..], " ")
    ensures ws == [ws[0]] + ws[1..]
  {
  }

  lemma JoinStartsWithWord(ws: seq<string>)
    requires ProperWords(ws) && ws != []
    ensures Join(ws, " ") != [] && !IsSpace(Join(ws, " ")[0])
  {
    JoinWellSpaced(ws);
  }

  lemma WordsOfSingle(w: string)
    requires w != [] && NoSpace(w)
    ensures Words(w) == [w]
  {
    CleanSingleWord(w);
    WordsUnfold(w);
    assert w[|w|..] == [];
    assert TrimStart(w[|w|..]) == [];
  }

  /** A word, one space and a text that starts with a word. */
  lemma WordsOfSpaced(w: string, j: string)
    requires w != [] && NoSpace(w) && j != [] && !IsSpace(j[0])
    ensures Words(w + " " + j) == [w] + Words(j)
  {
    var s := w + " " + j;
    assert s == w + (" " + j);
    TakeWordOf(w, " " + j);
    WordsUnfold(s);
    WordsSkipSpace(s, |w|);
    assert s[|w| + 1..] == j;
  }

  /** White space at either end does not change the words. */
  lemma WordsOfTrim(b: string)
    ensures Words(Trim(b)) == Words(b)
  {
    TrimStartTwice(b);
    WordsOfTrimEnd(TrimStart(b));
  }

  lemma TrimStartTwice(b: string)
    ensures TrimStart(TrimStart(b)) == TrimStart(b)
    ensures Words(TrimStart(b)) == Words(b)
  {
  }

  lemma WordsOfTrimEnd(t: string)
    ensures Words(TrimEnd(t)) == Words(t)
  {
    var e := TrimEnd(t);
    assert t == e + t[|e|..];
    WordsAppendSpaces(e, t[|e|..]);
  }

  /** Trailing white space does not change the words. */
  lemma {:induction false} WordsAppendSpaces(e: string, sp: string)
    requires AllSpace(sp)
    ensures Words(e + sp) == Words(e)
    decreases |e|
  {
    var t := TrimStart(e);
    if t == [] {
      AllSpaceTrimmed(e, sp);
    } else {
      TrimStartAppend(e, sp);
      var w := TakeWord(t);
      TakeWordAppend(t, sp);
      WordsVia(e, t);
      WordsVia(e + sp, t + sp);
      SliceAppend(t, sp, |w|);
      WordsAppendSpaces(t[|w|..], sp);
    }
  }

  lemma SliceAppend(t: string, sp: string, k: nat)
    requires k <= |t|
    ensures (t + sp)[k..] == t[k..] + sp
  {
  }

  /** The words of a text, from its leading-white-space-free part `t`. */
  lemma WordsVia(x: string, t: string)
    requires TrimStart(x) == t && t != []
    ensures Words(x) == [TakeWord(t)] + Words(t[|TakeWord(t)|..])
  {
  }

  lemma AllSpaceTrimmed(e: string, sp: string)
    requires TrimStart(e) == []
    requires AllSpace(sp)
    ensures TrimStart(e + sp) == [] && Words(e + sp) == []
  {
    var s := e + sp;
    assert AllSpace(s) by {
      forall i | 0 <= i < |s| ensures IsSpace(s[i]) {
        if i >= |e| { assert s[i] == sp[i - |e|]; }
      }
    }
  }

  lemma {:induction false} TrimStartAppend(e: string, sp: string)
    requires TrimStart(e) != []
    ensures TrimStart(e + sp) == TrimStart(e) + sp
  {
    assert (e + sp)[0] == e[0];
    if IsSpace(e[0]) {
      assert (e + sp)[1..] == e[1..] + sp;
      TrimStartAppend(e[1..], sp);
    }
  }

  /** The first word does not reach into appended white space. */
  lemma TakeWordAppend(t: string, sp: string)
    requires t != [] && !IsSpace(t[0])
    requires AllSpace(sp)
    ensures TakeWord(t + sp) == TakeWord(t)
  {
    var w := TakeWord(t);
    var r := t[|w|..];
    assert t == w + r;
    var rs := r + sp;
    assert rs == [] || IsSpace(rs[0]) by {
      if r != [] {
        assert rs[0] == r[0];
      } else if sp != [] {
        assert rs[0] == sp[0];
      }
    }
    Regroup3(w, r, sp);
    TakeWordOf(w, rs);
  }

  lemma Regroup3<T>(a: seq<T>, b: seq<T>, c: seq<T>)
    ensures a + b + c == a + (b + c)
  {
  }

  lemma WellSpacedSuffix(s: string, k: nat)
    requires WellSpaced(s) && k < |s| && IsSpace(s[k])
    ensures k + 1 < |s| && !IsSpace(s[k + 1]) && s[k] == ' '
    ensures WellSpaced(s[k + 1..])
  {
    var t := s[k + 1..];
    assert k + 1 < |s|;
    forall i | 0 <= i < |t| && IsSpace(t[i]) ensures t[i] == ' ' {
      assert t[i] == s[k + 1 + i];
    }
    forall i, j | 0 <= i < j < |t| && j == i + 1 ensures !IsSpace(t[i]) || !IsSpace(t[j]) {
      assert t[i] == s[k + 1 + i] && t[j] == s[k + 1 + j];
    }
  }

  lemma WordsUnfold(s: string)
    requires s != [] && !IsSpace(s[0])
    ensures Words(s) == [TakeWord(s)] + Words(s[|TakeWord(s)|..])
  {
    assert TrimStart(s) == s;
  }

  lemma WordsSkipSpace(s: string, k: nat)
    requires k + 1 < |s| && IsSpace(s[k]) && !IsSpace(s[k + 1])
    ensures Words(s[k..]) == Words(s[k + 1..])
  {
    assert s[k..][1..] == s[k + 1..];
    assert TrimStart(s[k + 1..]) == s[k + 1..];
    assert TrimStart(s[k..]) == s[k + 1..];
  }

  lemma JoinCons(w: string, ws: seq<string>, u: string)
    requires ws != [] && Join(ws, " ") == u
    ensures Join([w] + ws, " ") == w + " " + u
  {
    assert ([w] + ws)[1..] == ws;
  }

  lemma SplitAtSpace(s: string, k: nat)
    requires k < |s| && s[k] == ' '
    ensures s == s[..k] + " " + s[k + 1..]
  {
  }

  /** Splitting a well-spaced string into words and joining them with single
      spaces gives it back. */
  lemma {:induction false} JoinWordsOfWellSpaced(s: string)
    requires WellSpaced(s)
    ensures Join(Words(s), " ") == s
    ensures s != [] ==> Words(s) != [] && Words(s)[0] == TakeWord(s)
    decreases |s|
  {
    if s != [] {
      WordsUnfold(s);
      var w := TakeWord(s);
      if |w| == |s| {
        assert s[|w|..] == [];
        assert Words(s) == [w];
      } else {
        WellSpacedSuffix(s, |w|);
        var u := s[|w| + 1..];
        JoinWordsOfWellSpaced(u);
        WordsSkipSpace(s, |w|);
        JoinCons(w, Words(u), u);
        SplitAtSpace(s, |w|);
      }
    }
  }

  /** A label that is already comma-free and well spaced, and does not start with a
      synset identifier, is displayed as it is. */
  lemma PrettifyKeepsCleanLabel(s: string)
    requires WellSpaced(s) && ',' !in s
    requires s == [] || !IsSynsetId(TakeWord(s))
    ensures PrettifyLabel(s) == s
  {
    JoinWordsOfWellSpaced(s);
  }

  /** Prettifying twice changes nothing more, unless the first pass exposed a second
      synset identifier at the front. */
  lemma PrettifyIdempotent(s: string)
    requires var r := PrettifyLabel(s); r == [] || !IsSynsetId(TakeWord(r))
    ensures PrettifyLabel(PrettifyLabel(s)) == PrettifyLabel(s)
  {
    PrettifyKeepsCleanLabel(PrettifyLabel(s));
  }

  lemma {:induction false} TakeWordOf(w: string, rest: string)
    requires NoSpace(w) && (rest == [] || IsSpace(rest[0]))
    ensures TakeWord(w + rest) == w
  {
    if w != [] {
      assert (w + rest)[1..] == w[1..] + rest;
      TakeWordOf(w[1..], rest);
    }
  }

  lemma {:induction false} BeforeCommaOf(w: string, rest: string)
    requires ',' !in w && rest != [] && rest[0] == ','
    ensures BeforeComma(w + rest) == w
  {
    if w != [] {
      assert (w + rest)[1..] == w[1..] + rest;
      BeforeCommaOf(w[1..], rest);
    }
  }

  /** A leading synset identifier is dropped: "n01440764 tench" shows as "tench". */
  lemma PrettifyDropsSynsetId(id: string, rest: string)
    requires IsSynsetId(id)
    requires rest != [] && WellSpaced(rest) && ',' !in rest
    ensures PrettifyLabel(id + " " + rest) == rest
  {
    var s := id + " " + rest;
    assert NoSpace(id) by {
      forall i | 0 <= i < |id| ensures !IsSpace(id[i]) {
        if i > 0 { assert IsDigit(id[1..][i - 1]); }
      }
    }
    WellSpacedCons(id, rest);
    assert ',' !in s by {
      assert ',' !in id by {
        forall i | 0 <= i < |id| ensures id[i] != ',' {
          if i > 0 { assert IsDigit(id[1..][i - 1]); }
        }
      }
    }
    assert s == id + (" " + rest);
    TakeWordOf(id, " " + rest);
    WordsUnfold(s);
    WordsSkipSpace(s, |id|);
    assert s[|id| + 1..] == rest;
    JoinWordsOfWellSpaced(rest);
    assert Words(s) == [id] + Words(rest);
    assert Trim(BeforeComma(s)) == s;
    assert DisplayWords(s) == rest;
  }

  lemma PrettifyOnlyReadsBeforeComma(s: string)
    ensures PrettifyLabel(s) == PrettifyLabel(BeforeComma(s))
  {
    assert BeforeComma(BeforeComma(s)) == BeforeComma(s);
  }

  /** Only the text before the first comma is kept: "tench, Tinca tinca" shows as
      "tench". */
  lemma PrettifyCutsSynonyms(head: string, more: string)
    requires WellSpaced(head) && ',' !in head
    requires head == [] || !IsSynsetId(TakeWord(head))
    ensures PrettifyLabel(head + "," + more) == head
  {
    var s := head + "," + more;
    assert s == head + ("," + more);
    BeforeCommaOf(head, "," + more);
    PrettifyOnlyReadsBeforeComma(s);
    PrettifyKeepsCleanLabel(head);
  }

  /** The synset-prefixed ImageNet label format. */
  lemma PrettifySynsetExample()
    ensures PrettifyLabel("n01440764 tench") == "tench"
  {
    var id, rest := "n01440764", "tench";
    assert id + " " + rest == "n01440764 tench";
    assert IsSynsetId(id);
    assert WellSpaced(rest);
    PrettifyDropsSynsetId(id, rest);
  }

  lemma CleanSingleWord(w: string)
    requires w != [] && NoSpace(w)
    ensures WellSpaced(w) && TakeWord(w) == w
  {
    TakeWordOf(w, []);
    assert w + [] == w;
  }

  /** The comma-separated synonym ImageNet label format. */
  lemma PrettifySynonymExample()
    ensures PrettifyLabel("tench, Tinca tinca") == "tench"
  {
    var head, more := "tench", " Tinca tinca";
    assert head + "," + more == "tench, Tinca tinca";
    CleanSingleWord(head);
    PrettifyCutsSynonyms(head, more);
  }

  /** Irregular white space is collapsed: any white space before the identifier,
      any run of it after the identifier and any after the name leave just the
      name, as in "n01440764  tench\t, x" shown as "tench". */
  lemma PrettifyCollapsesSpacing(lead: string, id: string, gap: string, w: string, tail: string, more: string)
    requires AllSpace(lead) && AllSpace(gap) && gap != [] && AllSpace(tail)
    requires IsSynsetId(id)
    requires w != [] && NoSpace(w) && ',' !in w
    ensures PrettifyLabel(lead + id + gap + w + tail + "," + more) == w
  {
    var b := lead + id + gap + w + tail;
    SynsetIdIsWord(id);
    assert ',' !in b by {
      SpaceIsNotComma(lead);
      SpaceIsNotComma(gap);
      SpaceIsNotComma(tail);
    }
    assert lead + id + gap + w + tail + "," + more == b + ("," + more);
    BeforeCommaOf(b, "," + more);
    SpacedIdWords(lead, id, gap, w, tail);
    var r := PrettifyLabel(b + ("," + more));
    assert Words(r) == [w];
    JoinWordsOfWellSpaced(r);
  }

  lemma SpaceIsNotComma(s: string)
    requires AllSpace(s)
    ensures ',' !in s
  {
  }

  /** A synset identifier is one word without a comma. */
  lemma SynsetIdIsWord(id: string)
    requires IsSynsetId(id)
    ensures id != [] && NoSpace(id) && ',' !in id && !IsSpace(id[0])
  {
    forall i | 0 <= i < |id| ensures !IsSpace(id[i]) && id[i] != ',' {
      if i > 0 { assert IsDigit(id[1..][i - 1]); }
    }
  }

  lemma SpacedIdWords(lead: string, id: string, gap: string, w: string, tail: string)
    requires AllSpace(lead) && AllSpace(gap) && gap != [] && AllSpace(tail)
    requires IsSynsetId(id)
    requires w != [] && NoSpace(w)
    ensures Words(lead + id + gap + w + tail) == [id, w]
  {
    SynsetIdIsWord(id);
    var wt := w + tail;
    NameThenSpace(w, tail);
    var x := id + gap + wt;
    assert x[0] == id[0];
    Regroup(lead, id, gap, w, tail);
    WordsAfterLead(lead, x);
    WordsOfGap(id, gap, wt);
  }

  lemma Regroup<T>(a: seq<T>, b: seq<T>, c: seq<T>, d: seq<T>, e: seq<T>)
    ensures a + b + c + d + e == a + (b + c + (d + e))
  {
  }

  lemma NameThenSpace(w: string, tail: string)
    requires w != [] && NoSpace(w) && AllSpace(tail)
    ensures (w + tail)[0] == w[0] && !IsSpace(w[0])
    ensures Words(w + tail) == [w]
  {
    WordsAppendSpaces(w, tail);
    WordsOfSingle(w);
  }

  /** Leading white space does not change the words. */
  lemma WordsAfterLead(lead: string, x: string)
    requires AllSpace(lead)
    requires x == [] || !IsSpace(x[0])
    ensures Words(lead + x) == Words(x)
  {
    TrimStartOfGap(lead, x);
    assert TrimStart(x) == x;
  }

  /** A word, a run of white space and a text that starts with a word or is empty. */
  lemma WordsOfGap(w: string, gap: string, j: string)
    requires w != [] && NoSpace(w) && gap != []
    requires AllSpace(gap)
    requires j == [] || !IsSpace(j[0])
    ensures Words(w + gap + j) == [w] + Words(j)
  {
    var s := w + gap + j;
    assert s == w + (gap + j);
    TakeWordOf(w, gap + j);
    WordsUnfold(s);
    assert s[|w|..] == gap + j;
    TrimStartOfGap(gap, j);
    assert TrimStart(j) == j;
  }

  lemma {:induction false} TrimStartOfGap(gap: string, j: string)
    requires AllSpace(gap)
    requires j == [] || !IsSpace(j[0])
    ensures TrimStart(gap + j) == j
  {
    if gap == [] {
      assert gap + j == j;
    } else {
      assert (gap + j)[0] == gap[0];
      assert (gap + j)[1..] == gap[1..] + j;
      TrimStartOfGap(gap[1..], j);
    }
  }

  /** `getLabel(idx)`: the prettified table entry, or "class idx" when there is no
      table or the entry is missing or empty. */
  function GetLabel(labels: Option<seq<string>>, idx: nat): (r: string)
    ensures labels.None? || idx >= |labels.value| || labels.value[idx] == [] ==>
              r == "class " + NatToString(idx)
    ensures labels.Some? && idx < |labels.value| && labels.value[idx] != [] ==>
              r == PrettifyLabel(labels.value[idx])
  {
    if labels.None? then "class " + NatToString(idx)
    else if idx < |labels.value| && labels.value[idx] != [] then PrettifyLabel(labels.value[idx])
    else "class " + NatToString(idx)
  }
}
