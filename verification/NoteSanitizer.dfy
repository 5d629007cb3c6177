/**
 The operator-note sanitiser: white-space normalisation, a case-insensitive
 replace-all for every forbidden phrase, and truncation with an ellipsis.
 The trial journal and the outcome review carry the same code.
 */
module NoteSanitizer {
  import opened Sequences
  import opened Text
  import opened Wrappers

  const MAX_NOTE_LENGTH := 1200
  const REDACTED := "[redacted]"
  const ELLIPSIS := "\U{2026}"

  type Phrase = p: string | p != [] witness "-"

  /** The phrase table, with the hyphenated variant of the "auto" pair. */
  const PHRASES: seq<Phrase> := [
    "buy now", "sell now", "enter now", "short now", "auto approve", "auto-approve",
    "route order", "place order", "submit order"
  ]

  /** Texts the white-space rules remove: these never survive normalisation. */
  const UNTIDY: seq<Phrase> := ["\r", "\t", "  ", "\n\n\n"]

  // ---------- Matching ----------

  /** A case-insensitive occurrence of the lower-case text `p` at position `i`. */
  predicate MatchAt(s: string, p: string, i: nat) {
    i + |p| <= |s| && LowerAll(s[i..i + |p|]) == p
  }

  predicate Contains(s: string, p: string) {
    exists i :: 0 <= i <= |s| && MatchAt(s, p, i)
  }

  predicate EqualAt(s: string, p: string, i: nat) {
    i + |p| <= |s| && s[i..i + |p|] == p
  }

  /** `String.includes`, as applied to the lower-cased text. */
  predicate Includes(s: string, p: string) {
    exists i :: 0 <= i <= |s| && EqualAt(s, p, i)
  }

  lemma IncludesLowered(s: string, p: string)
    ensures Includes(LowerAll(s), p) <==> Contains(s, p)
  {
    var l := LowerAll(s);
    forall i: nat
      ensures EqualAt(l, p, i) <==> MatchAt(s, p, i)
    {
      if i + |p| <= |s| {
        assert l[i..i + |p|] == LowerAll(s[i..i + |p|]);
      }
    }
  }

  lemma MatchChar(s: string, p: string, i: nat, k: nat)
    requires MatchAt(s, p, i) && k < |p|
    ensures Lower(s[i + k]) == p[k]
  {
    var w := s[i..i + |p|];
    assert LowerAll(w)[k] == Lower(w[k]);
  }

  // ---------- Global replacement ----------

  /** `text.replace(/p/ig, mark)`: leftmost, non-overlapping, left to right. */
  function ReplaceAll(s: string, p: Phrase, mark: string): string
  {
    if |s| < |p| then s
    else if MatchAt(s, p, 0) then mark + ReplaceAll(s[|p|..], p, mark)
    else [s[0]] + ReplaceAll(s[1..], p, mark)
  }

  lemma MatchShift(s: string, p: string, d: nat, i: nat)
    requires d <= |s|
    ensures MatchAt(s[d..], p, i) <==> MatchAt(s, p, d + i)
  {
    if d + i + |p| <= |s| {
      assert s[d..][i..i + |p|] == s[d + i..d + i + |p|];
    }
  }

  lemma ContainsSuffix(s: string, p: string, d: nat)
    requires d <= |s| && Contains(s[d..], p)
    ensures Contains(s, p)
  {
    var i :| 0 <= i <= |s[d..]| && MatchAt(s[d..], p, i);
    MatchShift(s, p, d, i);
  }

  lemma ContainsPrefix(s: string, p: string, t: string)
    requires t <= s && Contains(t, p)
    ensures Contains(s, p)
  {
    var i :| 0 <= i <= |t| && MatchAt(t, p, i);
    assert t[i..i + |p|] == s[i..i + |p|];
    assert MatchAt(s, p, i);
  }

  /** Without an occurrence the replacement is the identity. */
  lemma {:induction false} ReplaceAllAbsent(s: string, p: Phrase, mark: string)
    requires !Contains(s, p)
    ensures ReplaceAll(s, p, mark) == s
  {
    if |s| >= |p| {
      assert !MatchAt(s, p, 0);
      if Contains(s[1..], p) {
        ContainsSuffix(s, p, 1);
      }
      ReplaceAllAbsent(s[1..], p, mark);
    }
  }

  /**
   With a first occurrence at `i`, the text before it is copied, the occurrence
   is replaced, and the scan goes on behind it. Together with ReplaceAllAbsent
   this determines the replacement completely.
   */
  lemma {:induction false} ReplaceAllFirst(s: string, p: Phrase, mark: string, i: nat, rest: string)
    requires MatchAt(s, p, i) && rest == s[i + |p|..]
    requires forall j :: 0 <= j < i ==> !MatchAt(s, p, j)
    ensures ReplaceAll(s, p, mark) == s[..i] + (mark + ReplaceAll(rest, p, mark))
  {
    if i > 0 {
      var t := s[1..];
      forall j | 0 <= j < i - 1
        ensures !MatchAt(t, p, j)
      {
        MatchShift(s, p, 1, j);
      }
      MatchShift(s, p, 1, i - 1);
      assert t[i - 1 + |p|..] == rest;
      ReplaceAllFirst(t, p, mark, i - 1, rest);
      CopyHead(s, p, mark, i, mark + ReplaceAll(rest, p, mark));
    } else {
      ReplaceHead(s, p, mark);
    }
  }

  lemma ReplaceHead(s: string, p: Phrase, mark: string)
    requires MatchAt(s, p, 0)
    ensures ReplaceAll(s, p, mark) == s[..0] + (mark + ReplaceAll(s[0 + |p|..], p, mark))
  {
  }

  lemma CopyHead(s: string, p: Phrase, mark: string, i: nat, after: string)
    requires 0 < i <= |s| && |p| <= |s| && !MatchAt(s, p, 0)
    requires ReplaceAll(s[1..], p, mark) == s[1..][..i - 1] + after
    ensures ReplaceAll(s, p, mark) == s[..i] + after
  {
    assert s[..i] == [s[0]] + s[1..][..i - 1];
    ConcatAssociative([s[0]], s[1..][..i - 1], after);
  }

  // ---------- The redaction mark never creates a match ----------

  /** No bracket, and at least one character that is not a lower-case letter. */
  predicate Foreign(q: string) {
    && q != []
    && (forall k :: 0 <= k < |q| ==> q[k] != '[' && q[k] != ']')
    && (exists k :: 0 <= k < |q| && !('a' <= q[k] <= 'z'))
  }

  lemma PhrasesAreRedactable()
    ensures forall p :: p in PHRASES ==> Redactable(p)
  {
    assert "buy now"[3] == "sell now"[4] == "enter now"[5] == "short now"[5] == ' ';
    assert "auto approve"[4] == "route order"[5] == "place order"[5] == "submit order"[6] == ' ';
    assert "auto-approve"[4] == '-';
  }

  lemma UntidyIsRedactable()
    ensures forall p :: p in UNTIDY ==> Redactable(p)
  {
    assert "\r"[0] == '\r' && "\t"[0] == '\t' && "  "[0] == ' ' && "\n\n\n"[0] == '\n';
  }

  /** Output up to the first bracket is input, copied. */
  lemma {:induction false} CopiedPrefix(s: string, p: Phrase, n: nat)
    requires n <= |ReplaceAll(s, p, REDACTED)|
    ensures '[' in ReplaceAll(s, p, REDACTED)[..n]
         || (n <= |s| && s[..n] == ReplaceAll(s, p, REDACTED)[..n])
  {
    if n > 0 && |s| >= |p| {
      var out := ReplaceAll(s, p, REDACTED);
      if MatchAt(s, p, 0) {
        assert out[..n][0] == '[';
      } else {
        var rest := ReplaceAll(s[1..], p, REDACTED);
        assert out == [s[0]] + rest;
        CopiedPrefix(s[1..], p, n - 1);
        assert out[..n] == [s[0]] + rest[..n - 1];
        if '[' !in rest[..n - 1] {
          assert s[..n] == [s[0]] + s[1..][..n - 1];
        }
      }
    }
  }

  lemma MarkHoldsNoMatch(rest: string, q: string, i: nat)
    requires Foreign(q) && i < |REDACTED|
    ensures !MatchAt(REDACTED + rest, q, i)
  {
    var out := REDACTED + rest;
    if MatchAt(out, q, i) {
      var k :| 0 <= k < |q| && !('a' <= q[k] <= 'z');
      MatchChar(out, q, i, 0);
      MatchChar(out, q, i, k);
      if i + |q| >= |REDACTED| {
        MatchChar(out, q, i, 9 - i);
      }
    }
  }

  /** An occurrence at the head of the output, free of brackets, was copied from the input. */
  lemma MatchAtHead(s: string, p: Phrase, q: string)
    requires Foreign(q) && MatchAt(ReplaceAll(s, p, REDACTED), q, 0)
    ensures MatchAt(s, q, 0)
  {
    var out := ReplaceAll(s, p, REDACTED);
    forall k | 0 <= k < |q|
      ensures out[..|q|][k] != '['
    {
      MatchChar(out, q, 0, k);
    }
    CopiedPrefix(s, p, |q|);
    assert s[0..0 + |q|] == out[0..0 + |q|];
  }

  /**
   An occurrence of `q` after replacing `p` was there before, and `q` is not `p`:
   the mark neither holds a phrase nor completes one across its edges.
   */
  lemma {:induction false} ReplaceCreatesNothing(s: string, p: Phrase, q: string, i: nat)
    requires Foreign(q) && MatchAt(ReplaceAll(s, p, REDACTED), q, i)
    ensures Contains(s, q) && q != p
  {
    var out := ReplaceAll(s, p, REDACTED);
    if |s| < |p| {
      assert Contains(s, q);
    } else if MatchAt(s, p, 0) {
      var rest := ReplaceAll(s[|p|..], p, REDACTED);
      if i < |REDACTED| {
        MarkHoldsNoMatch(rest, q, i);
      }
      MatchShift(out, q, |REDACTED|, i - |REDACTED|);
      assert out[|REDACTED|..] == rest;
      ReplaceCreatesNothing(s[|p|..], p, q, i - |REDACTED|);
      ContainsSuffix(s, q, |p|);
    } else if i > 0 {
      MatchShift(out, q, 1, i - 1);
      assert out[1..] == ReplaceAll(s[1..], p, REDACTED);
      ReplaceCreatesNothing(s[1..], p, q, i - 1);
      ContainsSuffix(s, q, 1);
    } else {
      MatchAtHead(s, p, q);
    }
  }

  // ---------- Redacting the whole table ----------

  /** Every phrase of the table in turn, without any test beforehand. */
  function RedactAll(s: string, phrases: seq<Phrase>): string
  {
    if phrases == [] then s
    else ReplaceAll(RedactAll(s, phrases[..|phrases| - 1]), phrases[|phrases| - 1], REDACTED)
  }

  lemma {:induction false} RedactAllCreatesNothing(s: string, phrases: seq<Phrase>, q: string)
    requires Foreign(q)
    requires Contains(RedactAll(s, phrases), q)
    ensures Contains(s, q) && q !in phrases
  {
    if phrases != [] {
      var n := |phrases| - 1;
      RedactionCreatesNothing(RedactAll(s, phrases[..n]), phrases[n], q);
      RedactAllCreatesNothing(s, phrases[..n], q);
      NotInSnoc(phrases, q);
    }
  }

  lemma RedactionCreatesNothing(s: string, p: Phrase, q: string)
    requires Foreign(q) && Contains(ReplaceAll(s, p, REDACTED), q)
    ensures Contains(s, q) && q != p
  {
    var i :| 0 <= i <= |ReplaceAll(s, p, REDACTED)| && MatchAt(ReplaceAll(s, p, REDACTED), q, i);
    ReplaceCreatesNothing(s, p, q, i);
  }

  lemma NotInSnoc(phrases: seq<Phrase>, q: string)
    requires phrases != [] && q !in phrases[..|phrases| - 1] && q != phrases[|phrases| - 1]
    ensures q !in phrases
  {
    assert phrases == phrases[..|phrases| - 1] + [phrases[|phrases| - 1]];
  }

  /** Redaction keeps a text non-empty and free of white space at its ends. */
  lemma {:induction false} ReplaceKeepsEnds(s: string, p: Phrase)
    requires Tight(s)
    ensures Tight(ReplaceAll(s, p, REDACTED))
  {
    ReplaceLast(s, p);
  }

  lemma {:induction false} ReplaceLast(s: string, p: Phrase)
    requires s != []
    ensures var out := ReplaceAll(s, p, REDACTED);
            out != [] && (out[|out| - 1] == ']' || out[|out| - 1] == s[|s| - 1])
  {
    if |s| >= |p| {
      if MatchAt(s, p, 0) {
        if |s| > |p| {
          ReplaceLast(s[|p|..], p);
        }
      } else if |s| > 1 {
        ReplaceLast(s[1..], p);
      }
    }
  }

  // ---------- White-space normalisation ----------

  /** `/\r\n?/g` to a line feed. */
  function CrToLf(s: string): string {
    if s == [] then []
    else if s[0] != '\r' then [s[0]] + CrToLf(s[1..])
    else if |s| > 1 && s[1] == '\n' then ['\n'] + CrToLf(s[2..])
    else ['\n'] + CrToLf(s[1..])
  }

  predicate IsBlank(c: char) {
    c == ' ' || c == '\t'
  }

  /** `/[\t ]+/g` to one space, written where the run ends. */
  function CollapseBlanks(s: string): string {
    if s == [] then []
    else if !IsBlank(s[0]) then [s[0]] + CollapseBlanks(s[1..])
    else if |s| > 1 && IsBlank(s[1]) then CollapseBlanks(s[1..])
    else [' '] + CollapseBlanks(s[1..])
  }

  /** `/\n{3,}/g` to two line feeds: all but the last two of a run go. */
  function CollapseLines(s: string): string {
    if s == [] then []
    else if |s| >= 3 && s[0] == s[1] == s[2] == '\n' then CollapseLines(s[1..])
    else [s[0]] + CollapseLines(s[1..])
  }

  function Normalise(s: string): string {
    Trim(CollapseLines(CollapseBlanks(CrToLf(s))))
  }

  function Truncate(s: string): string {
    if |s| > MAX_NOTE_LENGTH then TrimEnd(s[..MAX_NOTE_LENGTH - 1]) + ELLIPSIS else s
  }

  /** What the sanitiser computes, said without the shortcut tests. */
  function SanitizeWith(note: string, table: seq<Phrase>): string {
    Truncate(RedactAll(Normalise(note), table))
  }

  function Sanitize(note: string): string {
    SanitizeWith(note, PHRASES)
  }

  /** Non-empty, without white space at either end. */
  predicate Tight(s: string) {
    s != [] && !IsSpace(s[0]) && !IsSpace(s[|s| - 1])
  }

  predicate FreeOf(s: string, table: seq<Phrase>) {
    forall p :: p in table ==> !Contains(s, p)
  }

  /** The declarative meaning of a sanitised, non-empty note. */
  predicate CleanWith(s: string, table: seq<Phrase>) {
    Tight(s) && |s| <= MAX_NOTE_LENGTH && FreeOf(s, UNTIDY) && FreeOf(s, table)
  }

  predicate Clean(s: string) {
    CleanWith(s, PHRASES)
  }

  /** A phrase the redaction mark and the ellipsis can have no part in. */
  predicate Redactable(q: string) {
    Foreign(q) && ELLIPSIS[0] !in q
  }

  // ---------- Normalisation removes its own targets and nothing else ----------

  /** The text without its white space. */
  function Ink(s: string): string {
    if s == [] then [] else (if IsSpace(s[0]) then [] else [s[0]]) + Ink(s[1..])
  }

  /** `q` at the head of `s`, as a prefix test: the form the inductions use. */
  predicate StartsWith(s: string, q: string) {
    MatchAt(s, q, 0)
  }

  lemma ContainsHead(s: string, q: Phrase)
    requires s != []
    ensures Contains(s, q) <==> StartsWith(s, q) || Contains(s[1..], q)
  {
    if i :| 0 < i <= |s| && MatchAt(s, q, i) {
      MatchShift(s, q, 1, i - 1);
    }
    if Contains(s[1..], q) {
      ContainsSuffix(s, q, 1);
    }
  }

  lemma {:induction false} CrToLfTidies(s: string)
    ensures !Contains(CrToLf(s), "\r")
    ensures !Contains(s, "\r") ==> CrToLf(s) == s
  {
    if s != [] {
      var out := CrToLf(s);
      UntidyHeads(out);
      UntidyHeads(s);
      if s[0] == '\r' && |s| > 1 && s[1] == '\n' {
        CrToLfTidies(s[2..]);
        assert s[1..][1..] == s[2..] && out[1..] == CrToLf(s[2..]);
      } else {
        CrToLfTidies(s[1..]);
        assert out[1..] == CrToLf(s[1..]);
      }
    }
  }

  lemma {:induction false} CrToLfKeepsInk(s: string)
    ensures Ink(CrToLf(s)) == Ink(s)
  {
    if s != [] {
      if s[0] == '\r' && |s| > 1 && s[1] == '\n' {
        CrToLfKeepsInk(s[2..]);
        assert s[1..][1..] == s[2..] && CrToLf(s)[1..] == CrToLf(s[2..]);
      } else {
        CrToLfKeepsInk(s[1..]);
        assert CrToLf(s)[1..] == CrToLf(s[1..]);
      }
    }
  }

  lemma StartsWithSpelled(s: string, q: Phrase)
    requires forall k :: 0 <= k < |q| ==> IsSpace(q[k])
    ensures StartsWith(s, q) <==> q <= s
  {
    if |q| <= |s| {
      assert s[0..0 + |q|] == s[..|q|];
      assert LowerAll(q) == q;
      if StartsWith(s, q) {
        forall k | 0 <= k < |q|
          ensures s[k] == q[k]
        {
          MatchChar(s, q, 0, k);
        }
      }
    }
  }

  lemma UntidyHeads(s: string)
    requires s != []
    ensures Contains(s, "\r") <==> s[0] == '\r' || Contains(s[1..], "\r")
    ensures Contains(s, "\t") <==> s[0] == '\t' || Contains(s[1..], "\t")
    ensures Contains(s, "  ") <==> (|s| > 1 && s[0] == s[1] == ' ') || Contains(s[1..], "  ")
    ensures Contains(s, "\n\n\n") <==>
            (|s| > 2 && s[0] == s[1] == s[2] == '\n') || Contains(s[1..], "\n\n\n")
  {
    UntidyHead(s, "\r");
    UntidyHead(s, "\t");
    UntidyHead(s, "  ");
    UntidyHead(s, "\n\n\n");
  }

  lemma UntidyHead(s: string, q: Phrase)
    requires s != [] && forall k :: 0 <= k < |q| ==> IsSpace(q[k])
    ensures Contains(s, q) <==> q <= s || Contains(s[1..], q)
  {
    ContainsHead(s, q);
    StartsWithSpelled(s, q);
  }

  lemma {:induction false} CollapseBlanksTidies(s: string)
    ensures !Contains(CollapseBlanks(s), "\t") && !Contains(CollapseBlanks(s), "  ")
    ensures !Contains(s, "\r") ==> !Contains(CollapseBlanks(s), "\r")
    ensures !Contains(s, "\t") && !Contains(s, "  ") ==> CollapseBlanks(s) == s
  {
    if s != [] {
      var out := CollapseBlanks(s);
      CollapseBlanksTidies(s[1..]);
      UntidyHeads(s);
      if |s| > 1 {
        UntidyHeads(s[1..]);
      }
      if !IsBlank(s[0]) || |s| == 1 || !IsBlank(s[1]) {
        UntidyHeads(out);
        assert out[1..] == CollapseBlanks(s[1..]);
      }
    }
  }

  lemma {:induction false} CollapseBlanksKeepsInk(s: string)
    ensures Ink(CollapseBlanks(s)) == Ink(s)
  {
    if s != [] {
      CollapseBlanksKeepsInk(s[1..]);
      if !IsBlank(s[0]) || |s| == 1 || !IsBlank(s[1]) {
        assert CollapseBlanks(s)[1..] == CollapseBlanks(s[1..]);
      }
    }
  }

  lemma CollapseLinesHead(s: string)
    requires s != []
    ensures CollapseLines(s) != [] && CollapseLines(s)[0] == s[0]
    ensures |CollapseLines(s)| > 1 && s[0] == '\n' && CollapseLines(s)[1] == '\n' ==> |s| > 1 && s[1] == '\n'
  {
  }

  lemma {:induction false} CollapseLinesTidies(s: string)
    ensures !Contains(CollapseLines(s), "\n\n\n")
    ensures !Contains(s, "\n\n\n") ==> CollapseLines(s) == s
  {
    if s != [] {
      var out := CollapseLines(s);
      CollapseLinesHead(s);
      CollapseLinesTidies(s[1..]);
      UntidyHead(s, "\n\n\n");
      UntidyHead(out, "\n\n\n");
      if |s| > 1 {
        CollapseLinesHead(s[1..]);
      }
      if !(|s| >= 3 && s[0] == s[1] == s[2] == '\n') {
        assert out[1..] == CollapseLines(s[1..]);
      }
    }
  }

  lemma {:induction false} CollapseLinesStaysTidy(s: string)
    ensures !Contains(s, "\r") ==> !Contains(CollapseLines(s), "\r")
    ensures !Contains(s, "\t") ==> !Contains(CollapseLines(s), "\t")
    ensures !Contains(s, "  ") ==> !Contains(CollapseLines(s), "  ")
  {
    if s != [] {
      CollapseLinesStaysTidy(s[1..]);
      UntidyHeads(s);
      if !(|s| >= 3 && s[0] == s[1] == s[2] == '\n') {
        UntidyHeads(CollapseLines(s));
        assert CollapseLines(s)[1..] == CollapseLines(s[1..]);
        if |s| > 1 {
          CollapseLinesHead(s[1..]);
        }
      }
    }
  }

  lemma {:induction false} CollapseLinesKeepsInk(s: string)
    ensures Ink(CollapseLines(s)) == Ink(s)
  {
    if s != [] {
      CollapseLinesKeepsInk(s[1..]);
      if !(|s| >= 3 && s[0] == s[1] == s[2] == '\n') {
        assert CollapseLines(s)[1..] == CollapseLines(s[1..]);
      }
    }
  }

  lemma {:induction false} InkOfConcat(a: string, b: string)
    ensures Ink(a + b) == Ink(a) + Ink(b)
  {
    if a == [] {
      assert a + b == b;
    } else {
      InkOfConcat(a[1..], b);
      assert (a + b)[1..] == a[1..] + b;
      ConcatAssociative(if IsSpace(a[0]) then [] else [a[0]], Ink(a[1..]), Ink(b));
    }
  }

  lemma {:induction false} TrimStartKeepsInk(s: string)
    ensures Ink(TrimStart(s)) == Ink(s)
  {
    if s != [] && IsSpace(s[0]) {
      TrimStartKeepsInk(s[1..]);
    }
  }

  lemma {:induction false} TrimEndKeepsInk(s: string)
    ensures Ink(TrimEnd(s)) == Ink(s)
  {
    if s != [] && IsSpace(s[|s| - 1]) {
      var n := |s| - 1;
      TrimEndKeepsInk(s[..n]);
      InkOfConcat(s[..n], [s[n]]);
      assert s == s[..n] + [s[n]];
    }
  }

  lemma {:induction false} TrimStartIsSuffix(s: string)
    ensures TrimStart(s) == s[|s| - |TrimStart(s)|..]
    ensures TrimStart(s) != [] ==> !IsSpace(TrimStart(s)[0])
  {
    if s != [] && IsSpace(s[0]) {
      TrimStartIsSuffix(s[1..]);
    }
  }

  lemma {:induction false} TrimEndIsPrefix(s: string)
    ensures TrimEnd(s) <= s
    ensures TrimEnd(s) != [] ==> !IsSpace(TrimEnd(s)[|TrimEnd(s)| - 1])
    ensures s != [] && !IsSpace(s[0]) ==> TrimEnd(s) != []
  {
    if s != [] && IsSpace(s[|s| - 1]) {
      TrimEndIsPrefix(s[..|s| - 1]);
    }
  }

  /** Once the front is free of space, trimming the end keeps it free. */
  lemma TrimIsTight(s: string)
    ensures Trim(s) != [] ==> Tight(Trim(s))
    ensures Tight(s) ==> Trim(s) == s
  {
    TrimStartIsSuffix(s);
    TrimEndIsPrefix(TrimStart(s));
  }

  lemma TrimCreatesNothing(s: string, q: Phrase)
    requires Contains(Trim(s), q)
    ensures Contains(s, q)
  {
    var b := TrimStart(s);
    TrimStartIsSuffix(s);
    TrimEndIsPrefix(b);
    ContainsPrefix(b, q, TrimEnd(b));
    ContainsSuffix(s, q, |s| - |b|);
  }

  /** Normalisation keeps every non-space character, in order... */
  lemma NormaliseKeepsInk(s: string)
    ensures Ink(Normalise(s)) == Ink(s)
    ensures Normalise(s) != [] ==> Tight(Normalise(s))
  {
    var a := CrToLf(s);
    var b := CollapseBlanks(a);
    var c := CollapseLines(b);
    CrToLfKeepsInk(s);
    CollapseBlanksKeepsInk(a);
    CollapseLinesKeepsInk(b);
    TrimStartKeepsInk(c);
    TrimEndKeepsInk(TrimStart(c));
    TrimIsTight(c);
  }

  /** ...leaves none of the untidy texts... */
  lemma NormaliseIsTidy(s: string)
    ensures FreeOf(Normalise(s), UNTIDY)
  {
    var a := CrToLf(s);
    var b := CollapseBlanks(a);
    var c := CollapseLines(b);
    CrToLfTidies(s);
    CollapseBlanksTidies(a);
    CollapseLinesTidies(b);
    CollapseLinesStaysTidy(b);
    forall q | q in UNTIDY
      ensures !Contains(Trim(c), q)
    {
      if Contains(Trim(c), q) {
        TrimCreatesNothing(c, q);
      }
    }
  }

  /** ...and does not touch a tidy text. */
  lemma NormaliseFixed(s: string)
    requires Tight(s) && FreeOf(s, UNTIDY)
    ensures Normalise(s) == s
  {
    UntidyMembers();
    CrToLfTidies(s);
    CollapseBlanksTidies(s);
    CollapseLinesTidies(s);
    TrimIsTight(s);
  }

  lemma UntidyMembers()
    ensures "\r" in UNTIDY && "\t" in UNTIDY && "  " in UNTIDY && "\n\n\n" in UNTIDY
  {
    assert UNTIDY[0] == "\r" && UNTIDY[1] == "\t" && UNTIDY[2] == "  " && UNTIDY[3] == "\n\n\n";
  }

  // ---------- The sanitised note ----------

  lemma {:induction false} RedactAllKeepsEnds(s: string, phrases: seq<Phrase>)
    requires Tight(s)
    requires forall p :: p in phrases ==> Foreign(p)
    ensures Tight(RedactAll(s, phrases))
  {
    if phrases != [] {
      var n := |phrases| - 1;
      RedactAllKeepsEnds(s, phrases[..n]);
      ReplaceKeepsEnds(RedactAll(s, phrases[..n]), phrases[n]);
    }
  }

  lemma {:induction false} RedactAllAbsent(s: string, phrases: seq<Phrase>)
    requires FreeOf(s, phrases)
    ensures RedactAll(s, phrases) == s
  {
    if phrases != [] {
      RedactAllAbsent(s, phrases[..|phrases| - 1]);
      ReplaceAllAbsent(s, phrases[|phrases| - 1], REDACTED);
    }
  }

  /** Truncation is safe: it keeps the bound and the ends... */
  lemma TruncateKeepsEnds(s: string)
    requires Tight(s)
    ensures |Truncate(s)| <= MAX_NOTE_LENGTH && Tight(Truncate(s))
  {
    if |s| > MAX_NOTE_LENGTH {
      TrimEndIsPrefix(s[..MAX_NOTE_LENGTH - 1]);
    }
  }

  /** ...and creates no occurrence. */
  lemma TruncateCreatesNothing(s: string, q: Phrase)
    requires ELLIPSIS[0] !in q && Contains(Truncate(s), q)
    ensures Contains(s, q)
  {
    if |s| > MAX_NOTE_LENGTH {
      var cut := TrimEnd(s[..MAX_NOTE_LENGTH - 1]);
      TrimEndIsPrefix(s[..MAX_NOTE_LENGTH - 1]);
      var out := cut + ELLIPSIS;
      var i :| 0 <= i <= |out| && MatchAt(out, q, i);
      MatchChar(out, q, i, |q| - 1);
      assert out[i..i + |q|] == cut[i..i + |q|];
      assert MatchAt(cut, q, i);
      ContainsPrefix(s, q, cut);
    }
  }

  lemma RedactedIsFree(s: string, table: seq<Phrase>, q: Phrase)
    requires Redactable(q) && (!Contains(s, q) || q in table)
    ensures !Contains(Truncate(RedactAll(s, table)), q)
  {
    if Contains(Truncate(RedactAll(s, table)), q) {
      TruncateCreatesNothing(RedactAll(s, table), q);
      RedactAllCreatesNothing(s, table, q);
    }
  }

  /** Redaction and truncation turn a tight, tidy text into a clean one. */
  lemma {:induction false} RedactedIsClean(s: string, table: seq<Phrase>)
    requires Tight(s) && FreeOf(s, UNTIDY)
    requires forall p :: p in table || p in UNTIDY ==> Redactable(p)
    ensures CleanWith(Truncate(RedactAll(s, table)), table)
  {
    RedactAllKeepsEnds(s, table);
    TruncateKeepsEnds(RedactAll(s, table));
    forall q | q in UNTIDY || q in table
      ensures !Contains(Truncate(RedactAll(s, table)), q)
    {
      RedactedIsFree(s, table, q);
    }
  }

  lemma SanitizedWithIsClean(note: string, table: seq<Phrase>)
    requires forall p :: p in table || p in UNTIDY ==> Redactable(p)
    ensures SanitizeWith(note, table) == [] || CleanWith(SanitizeWith(note, table), table)
    ensures SanitizeWith(note, table) == [] <==> Ink(note) == []
  {
    NormaliseKeepsInk(note);
    NormaliseIsTidy(note);
    if Normalise(note) == [] {
      RedactAllAbsent([], table);
    } else {
      RedactedIsClean(Normalise(note), table);
    }
  }

  lemma FixedPointsWith(s: string, table: seq<Phrase>)
    requires forall p :: p in table || p in UNTIDY ==> Redactable(p)
    ensures SanitizeWith(s, table) == s <==> s == [] || CleanWith(s, table)
  {
    SanitizedWithIsClean(s, table);
    if s != [] && CleanWith(s, table) {
      NormaliseFixed(s);
      RedactAllAbsent(s, table);
    }
  }

  /**
   The published promise: every sanitised note is empty or clean, so it holds
   no forbidden phrase in any letter case and at most 1200 characters.
   */
  lemma SanitizedIsClean(note: string)
    ensures Sanitize(note) == [] || Clean(Sanitize(note))
    ensures Sanitize(note) == [] <==> Ink(note) == []
  {
    PhrasesAreRedactable();
    UntidyIsRedactable();
    SanitizedWithIsClean(note, PHRASES);
  }

  /** The notes the sanitiser leaves alone are exactly the clean ones. */
  lemma FixedPoints(s: string)
    ensures Sanitize(s) == s <==> s == [] || Clean(s)
  {
    PhrasesAreRedactable();
    UntidyIsRedactable();
    FixedPointsWith(s, PHRASES);
  }

  lemma Idempotent(note: string)
    ensures Sanitize(Sanitize(note)) == Sanitize(note)
  {
    SanitizedIsClean(note);
    FixedPoints(Sanitize(note));
  }

  /** A note without a listed phrase loses white space and its tail only. */
  lemma InnocentNote(note: string, table: seq<Phrase>)
    requires FreeOf(Normalise(note), table)
    ensures SanitizeWith(note, table) == Truncate(Normalise(note))
    ensures |Normalise(note)| <= MAX_NOTE_LENGTH ==> Ink(SanitizeWith(note, table)) == Ink(note)
  {
    RedactAllAbsent(Normalise(note), table);
    NormaliseKeepsInk(note);
  }

  /**
   The redaction loop as written: the text is lower-cased once, before the loop,
   and each replacement is guarded by a test on that stale copy. The result is
   still the unconditional redaction.
   */
  method RedactPhrases(collapsed: string, table: seq<Phrase>) returns (cleaned: string)
    requires forall p :: p in table ==> Redactable(p)
    ensures cleaned == RedactAll(collapsed, table)
  {
    cleaned := collapsed;
    var lowered := LowerAll(cleaned);
    for i := 0 to |table|
      invariant cleaned == RedactAll(collapsed, table[..i])
    {
      var phrase := table[i];
      assert table[..i + 1][..i] == table[..i];
      assert phrase in table;
      IncludesLowered(collapsed, phrase);
      if Includes(lowered, phrase) {
        cleaned := ReplaceAll(cleaned, phrase, REDACTED);
      } else {
        if Contains(cleaned, phrase) {
          RedactAllCreatesNothing(collapsed, table[..i], phrase);
        }
        ReplaceAllAbsent(cleaned, phrase, REDACTED);
      }
    }
    assert table[..|table|] == table;
  }

  method SanitizeMomentumNote(note: Option<string>) returns (cleaned: string)
    ensures cleaned == if note.Some? then Sanitize(note.value) else []
  {
    if note.None? {
      return [];
    }
    var collapsed := Trim(CollapseLines(CollapseBlanks(CrToLf(note.value))));
    if collapsed == [] {
      RedactAllAbsent(collapsed, PHRASES);
      return [];
    }
    PhrasesAreRedactable();
    UntidyIsRedactable();
    cleaned := RedactPhrases(collapsed, PHRASES);
    if |cleaned| > MAX_NOTE_LENGTH {
      cleaned := TrimEnd(cleaned[..MAX_NOTE_LENGTH - 1]) + ELLIPSIS;
    }
  }
}
