/**
 What the note sanitiser promises, told in characters: each stage on any text,
 the shape of the result, and the phrases in every letter case.
 */
module NotePromise {
  import opened Sequences
  import opened Text
  import opened NoteSanitizer

  // ---------- Stage by stage, on any text ----------

  predicate AllBlanks(s: string) {
    forall i :: 0 <= i < |s| ==> s[i] == ' ' || s[i] == '\t'
  }

  predicate AllLineFeeds(s: string) {
    forall i :: 0 <= i < |s| ==> s[i] == '\n'
  }

  /** The characters on either side of a cut. */
  predicate Meets(a: string, b: string, last: char, first: char) {
    a != [] && b != [] && a[|a| - 1] == last && b[0] == first
  }

  /** Line ends are rewritten piece by piece, wherever the cut does not split a pair... */
  lemma {:induction false} CrToLfPieces(a: string, b: string)
    requires !Meets(a, b, '\r', '\n')
    ensures CrToLf(a + b) == CrToLf(a) + CrToLf(b)
    decreases |a|
  {
    if a == [] {
      assert a + b == b;
    } else if a[0] == '\r' && |a| > 1 && a[1] == '\n' {
      CrToLfPieces(a[2..], b);
      assert (a + b)[2..] == a[2..] + b;
      ConcatAssociative(['\n'], CrToLf(a[2..]), CrToLf(b));
    } else {
      CrToLfPieces(a[1..], b);
      assert (a + b)[1..] == a[1..] + b;
      ConcatAssociative([if a[0] == '\r' then '\n' else a[0]], CrToLf(a[1..]), CrToLf(b));
    }
  }

  /** ...and a pair is one line feed, as a lone carriage return is. */
  lemma CrToLfPair()
    ensures CrToLf("\r\n") == "\n" && CrToLf("\r") == "\n"
  {
    assert "\r\n"[2..] == [] && "\r"[1..] == [];
  }

  /** Spaces and tabs are rewritten piece by piece, wherever the cut does not split a run... */
  lemma {:induction false} CollapseBlanksPieces(a: string, b: string)
    requires !(a != [] && b != [] && IsBlank(a[|a| - 1]) && IsBlank(b[0]))
    ensures CollapseBlanks(a + b) == CollapseBlanks(a) + CollapseBlanks(b)
  {
    if a == [] {
      assert a + b == b;
    } else {
      CollapseBlanksPieces(a[1..], b);
      assert (a + b)[1..] == a[1..] + b;
      if !IsBlank(a[0]) || |a| == 1 || !IsBlank(a[1]) {
        ConcatAssociative([if IsBlank(a[0]) then ' ' else a[0]], CollapseBlanks(a[1..]), CollapseBlanks(b));
      }
    }
  }

  /** ...and a whole run is one space. */
  lemma {:induction false} CollapseBlanksRun(s: string)
    requires s != [] && AllBlanks(s)
    ensures CollapseBlanks(s) == " "
  {
    if |s| > 1 {
      CollapseBlanksRun(s[1..]);
    }
  }

  lemma {:induction false} CollapseBlanksOfInk(s: string)
    requires forall i :: 0 <= i < |s| ==> s[i] != ' ' && s[i] != '\t'
    ensures CollapseBlanks(s) == s
  {
    if s != [] {
      CollapseBlanksOfInk(s[1..]);
    }
  }

  /** Line feeds are rewritten piece by piece, wherever the cut does not split a run... */
  lemma {:induction false} CollapseLinesPieces(a: string, b: string)
    requires !Meets(a, b, '\n', '\n')
    ensures CollapseLines(a + b) == CollapseLines(a) + CollapseLines(b)
  {
    if a == [] {
      assert a + b == b;
    } else {
      CollapseLinesPieces(a[1..], b);
      assert (a + b)[1..] == a[1..] + b;
      if !(|a| >= 3 && a[0] == a[1] == a[2] == '\n') {
        ConcatAssociative([a[0]], CollapseLines(a[1..]), CollapseLines(b));
      }
    }
  }

  /** ...and of a whole run two at most are left. */
  lemma {:induction false} CollapseLinesRun(s: string)
    requires AllLineFeeds(s)
    ensures CollapseLines(s) == if |s| <= 2 then s else "\n\n"
  {
    if s != [] {
      CollapseLinesRun(s[1..]);
    }
  }

  predicate Blank(c: char) {
    c as int == 32 || 9 <= c as int <= 13
  }

  predicate AllBlank(s: string) {
    forall i :: 0 <= i < |s| ==> Blank(s[i])
  }

  lemma {:induction false} TrimEndSplits(s: string)
    ensures TrimEnd(s) <= s && AllBlank(s[|TrimEnd(s)|..])
    ensures TrimEnd(s) != [] ==> !Blank(TrimEnd(s)[|TrimEnd(s)| - 1])
  {
    if s != [] && IsSpace(s[|s| - 1]) {
      TrimEndSplits(s[..|s| - 1]);
      assert forall i :: |TrimEnd(s)| <= i < |s| - 1 ==> s[i] == s[..|s| - 1][|TrimEnd(s)|..][i - |TrimEnd(s)|];
    }
  }

  lemma {:induction false} TrimStartSplits(s: string)
    ensures |TrimStart(s)| <= |s| && s[|s| - |TrimStart(s)|..] == TrimStart(s)
    ensures AllBlank(s[..|s| - |TrimStart(s)|])
    ensures TrimStart(s) != [] ==> !Blank(TrimStart(s)[0])
  {
    if s != [] && IsSpace(s[0]) {
      TrimStartSplits(s[1..]);
      assert s[..|s| - |TrimStart(s)|] == [s[0]] + s[1..][..|s| - 1 - |TrimStart(s)|];
    }
  }

  lemma SplitAround(s: string, k: nat, middle: string, t: string)
    requires k <= |s| && s[k..] == middle && t <= middle
    ensures s == s[..k] + t + middle[|t|..]
    ensures t != [] ==> t[0] == middle[0]
  {
    assert middle == t + middle[|t|..];
    assert s == s[..k] + middle;
    ConcatAssociative(s[..k], t, middle[|t|..]);
  }

  /** Trimming takes white space off both ends and stops at the first other character. */
  lemma TrimSplits(s: string) returns (before: string, after: string)
    ensures s == before + Trim(s) + after
    ensures AllBlank(before) && AllBlank(after)
    ensures Trim(s) != [] ==> !Blank(Trim(s)[0]) && !Blank(Trim(s)[|Trim(s)| - 1])
  {
    var middle := TrimStart(s);
    TrimStartSplits(s);
    TrimEndSplits(middle);
    var k := |s| - |middle|;
    before, after := s[..k], middle[|Trim(s)|..];
    SplitAround(s, k, middle, Trim(s));
  }

  /** A text over 1200 characters keeps its first 1199, less white space at their end, and gets an ellipsis. */
  lemma TruncatedMeaning(s: string) returns (kept: string)
    ensures |s| <= 1200 ==> Truncate(s) == s
    ensures |s| > 1200 ==>
              && Truncate(s) == kept + "\U{2026}" && |kept| <= 1199 && kept <= s
              && AllBlank(s[|kept|..1199]) && (kept != [] ==> !Blank(kept[|kept| - 1]))
  {
    kept := [];
    if |s| > 1200 {
      kept := TrimEnd(s[..1199]);
      TrimEndSplits(s[..1199]);
      assert s[|kept|..1199] == s[..1199][|kept|..];
    }
  }

  // ---------- The promise, in letters ----------

  /** One letter, or its other case. */
  predicate SameLetter(c: char, d: char) {
    || c == d
    || ('A' <= c <= 'Z' && d as int == c as int + 32)
    || ('A' <= d <= 'Z' && c as int == d as int + 32)
  }

  predicate CaseVariant(w: string, p: string) {
    |w| == |p| && forall i :: 0 <= i < |w| ==> SameLetter(w[i], p[i])
  }

  /** No capital letter. */
  predicate Uncapitalised(p: string) {
    forall i :: 0 <= i < |p| ==> !('A' <= p[i] <= 'Z')
  }

  lemma LowerIsVariant(w: string, p: string)
    requires Uncapitalised(p)
    ensures LowerAll(w) == p <==> CaseVariant(w, p)
  {
    if CaseVariant(w, p) {
      assert LowerAll(w) == p;
    } else if |w| == |p| {
      var i :| 0 <= i < |w| && !SameLetter(w[i], p[i]);
      assert LowerAll(w)[i] != p[i];
    }
  }

  /** A phrase is found exactly when the text holds it in some letter case. */
  lemma FoundIff(s: string, p: string)
    requires Uncapitalised(p)
    ensures Contains(s, p) <==> exists w :: CaseVariant(w, p) && Includes(s, w)
  {
    if i :| 0 <= i <= |s| && MatchAt(s, p, i) {
      LowerIsVariant(s[i..i + |p|], p);
      assert EqualAt(s, s[i..i + |p|], i);
    }
    if w :| CaseVariant(w, p) && Includes(s, w) {
      var i :| 0 <= i <= |s| && EqualAt(s, w, i);
      LowerIsVariant(w, p);
      assert MatchAt(s, p, i);
    }
  }

  /** The nine phrases, spelled out. */
  predicate Forbidden(p: string) {
    || p == "buy now" || p == "sell now" || p == "enter now" || p == "short now"
    || p == "auto approve" || p == "auto-approve"
    || p == "route order" || p == "place order" || p == "submit order"
  }

  lemma ForbiddenIsListed(p: string)
    ensures Forbidden(p) <==> p in PHRASES
    ensures Forbidden(p) ==> Uncapitalised(p)
  {
    assert PHRASES[0] == "buy now" && PHRASES[1] == "sell now" && PHRASES[2] == "enter now";
    assert PHRASES[3] == "short now" && PHRASES[4] == "auto approve" && PHRASES[5] == "auto-approve";
    assert PHRASES[6] == "route order" && PHRASES[7] == "place order" && PHRASES[8] == "submit order";
  }

  /** No sanitised note holds any of the nine phrases in any letter case. */
  lemma NoPhraseInAnyCase(note: string, p: string, w: string)
    requires Forbidden(p) && CaseVariant(w, p)
    ensures !Includes(Sanitize(note), w)
  {
    ForbiddenIsListed(p);
    SanitizedIsClean(note);
    FoundIff(Sanitize(note), p);
    if Sanitize(note) == [] {
      assert |p| > 0;
    }
  }

  /** Length, ends and white space of a sanitised note, in characters. */
  lemma SanitizedShape(note: string)
    ensures |Sanitize(note)| <= 1200
    ensures Sanitize(note) == [] <==> AllBlank(note)
    ensures Sanitize(note) != [] ==> !Blank(Sanitize(note)[0]) && !Blank(Sanitize(note)[|Sanitize(note)| - 1])
    ensures forall q :: q == "\r" || q == "\t" || q == "  " || q == "\n\n\n" ==> !Includes(Sanitize(note), q)
  {
    SanitizedIsClean(note);
    InkOfBlank(note);
    forall q | q == "\r" || q == "\t" || q == "  " || q == "\n\n\n"
      ensures !Includes(Sanitize(note), q)
    {
      UntidyMembers();
      FoundIff(Sanitize(note), q);
      assert CaseVariant(q, q);
    }
  }

  lemma {:induction false} InkOfBlank(s: string)
    ensures Ink(s) == [] <==> AllBlank(s)
  {
    if s != [] {
      InkOfBlank(s[1..]);
      assert AllBlank(s) <==> Blank(s[0]) && AllBlank(s[1..]);
    }
  }

  /** A note that is "buy now" in any letter case, as BUY NOW, becomes the mark. */
  lemma LonePhrase(w: string)
    requires CaseVariant(w, "buy now")
    ensures Sanitize(w) == "[redacted]"
  {
    ForbiddenIsListed("buy now");
    LowerIsVariant(w, "buy now");
    LonePhraseIsTidy(w);
    PhrasesAreRedactable();
    assert PHRASES[0] == "buy now";
    LoneWith(w, PHRASES);
  }

  lemma LoneWith(w: string, table: seq<Phrase>)
    requires Tight(w) && FreeOf(w, UNTIDY)
    requires table != [] && forall p :: p in table ==> Redactable(p)
    requires LowerAll(w) == table[0]
    ensures SanitizeWith(w, table) == REDACTED
  {
    NormaliseFixed(w);
    RedactFirst(w, table);
  }

  lemma LonePhraseIsTidy(w: string)
    requires CaseVariant(w, "buy now")
    ensures Tight(w) && FreeOf(w, UNTIDY)
  {
    assert forall i :: 0 <= i < 7 ==> SameLetter(w[i], "buy now"[i]);
    forall q, i | q in UNTIDY && 0 <= i <= |w|
      ensures !MatchAt(w, q, i)
    {
      if MatchAt(w, q, i) {
        MatchChar(w, q, i, 0);
        MatchChar(w, q, i, |q| - 1);
      }
    }
  }

  lemma ReplaceWhole(w: string, p: Phrase)
    requires LowerAll(w) == p
    ensures ReplaceAll(w, p, REDACTED) == REDACTED
  {
    assert w[0..0 + |p|] == w;
    assert ReplaceAll([], p, REDACTED) == [];
    assert w[|p|..] == [] && REDACTED + [] == REDACTED;
  }

  lemma {:induction false} RedactFirst(w: string, phrases: seq<Phrase>)
    requires phrases != [] && forall p :: p in phrases ==> Redactable(p)
    requires LowerAll(w) == phrases[0]
    ensures RedactAll(w, phrases) == REDACTED
  {
    var n := |phrases| - 1;
    if n == 0 {
      var p := phrases[0];
      assert RedactAll(w, phrases[..0]) == w;
      assert phrases[n] == p && RedactAll(w, phrases) == ReplaceAll(w, p, REDACTED);
      ReplaceWhole(w, p);
    } else {
      RedactFirst(w, phrases[..n]);
      MarkIsFree(phrases[n]);
      ReplaceAllAbsent(REDACTED, phrases[n], REDACTED);
    }
  }

  lemma MarkIsFree(q: Phrase)
    requires Redactable(q)
    ensures !Contains(REDACTED, q)
  {
    assert REDACTED + [] == REDACTED;
    forall i | 0 <= i <= |REDACTED|
      ensures !MatchAt(REDACTED, q, i)
    {
      if i < |REDACTED| {
        MarkHoldsNoMatch([], q, i);
      }
    }
  }
}
