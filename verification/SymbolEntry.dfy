/** The manual symbol box: splitting free text into symbols, and merging two entries. */
module SymbolEntry {
  import opened Sequences
  import opened Text
  import opened OrderedMap

  datatype Parsed = Parsed(rawSymbols: seq<string>, symbols: seq<string>, duplicates: seq<string>, duplicateCount: int)
  datatype Merged = Merged(symbols: seq<string>, addedSymbols: seq<string>,
                           duplicates: seq<string>, duplicateCount: int)

  // ---------- Splitting ----------

  predicate IsSeparator(c: char) {
    c == ',' || IsSpace(c)
  }

  function DropSeparators(s: string): (r: string)
    ensures |r| <= |s|
    ensures r != [] ==> !IsSeparator(r[0])
  {
    if s == [] || !IsSeparator(s[0]) then s else DropSeparators(s[1..])
  }

  /** `split(/[,\s]+/)`, with `word` read so far: a run of separators ends one piece. */
  function Split(s: string, word: string): seq<string>
    decreases |s|
  {
    if s == [] then [word]
    else if !IsSeparator(s[0]) then Split(s[1..], word + [s[0]])
    else [word] + Split(DropSeparators(s[1..]), [])
  }

  /** Trim and upper-case every piece, then drop the empty ones. */
  function Tidy(pieces: seq<string>): seq<string> {
    if pieces == [] then []
    else
      var piece := UpperAll(Trim(pieces[0]));
      (if piece == [] then [] else [piece]) + Tidy(pieces[1..])
  }

  function RawFrom(s: string, word: string): seq<string> {
    Tidy(Split(s, word))
  }

  function Raw(value: string): seq<string> {
    RawFrom(value, [])
  }

  /** A symbol: non-empty, upper case, no separator. */
  predicate IsSymbol(x: string) {
    x != [] && forall i :: 0 <= i < |x| ==> !IsSeparator(x[i]) && Upper(x[i]) == x[i]
  }

  // ---------- Parsing and merging, as functions ----------

  /** The members that occur again, in the order of their second occurrence. */
  function Repeated(s: seq<string>): seq<string> {
    if s == [] then []
    else
      var front, x := s[..|s| - 1], s[|s| - 1];
      if x in front && x !in Repeated(front) then Repeated(front) + [x] else Repeated(front)
  }

  function Parse(value: string): Parsed {
    var raw := Raw(value);
    Parsed(raw, FirstSeen(raw), Repeated(raw), |raw| - |FirstSeen(raw)|)
  }

  function Join(list: seq<string>, separator: string): string {
    if list == [] then []
    else if |list| == 1 then list[0]
    else list[0] + separator + Join(list[1..], separator)
  }

  function Format(parsed: Parsed): string {
    if |parsed.symbols| > 0 then Join(parsed.symbols, ", ") else "-"
  }

  /** The members of `s[..k]` that are known, or seen earlier in `s`. */
  function Seen(known: seq<string>, s: seq<string>, k: nat): seq<string>
    requires k <= |s|
  {
    if k == 0 then []
    else Seen(known, s, k - 1) + if s[k - 1] in known + s[..k - 1] then [s[k - 1]] else []
  }

  /** The others. */
  function New(known: seq<string>, s: seq<string>, k: nat): (r: seq<string>)
    requires k <= |s|
    ensures |r| + |Seen(known, s, k)| == k
  {
    if k == 0 then []
    else New(known, s, k - 1) + if s[k - 1] in known + s[..k - 1] then [] else [s[k - 1]]
  }

  function MergeInto(existing: seq<string>, incoming: Parsed): Merged {
    var n := |incoming.symbols|;
    var added, overlap := New(existing, incoming.symbols, n), Seen(existing, incoming.symbols, n);
    Merged(existing + added, added, FirstSeen(incoming.duplicates + overlap), incoming.duplicateCount + |overlap|)
  }

  function Merge(existingSymbols: seq<string>, incoming: Parsed): Merged {
    MergeInto(Parse(Join(existingSymbols, ",")).symbols, incoming)
  }

  // ---------- The loops ----------

  method ParseManualSymbolEntry(value: string) returns (parsed: Parsed)
    ensures parsed == Parse(value)
    ensures parsed.symbols == FirstSeen(parsed.rawSymbols) && Distinct(parsed.symbols)
    ensures |parsed.rawSymbols| == |parsed.symbols| + parsed.duplicateCount
    ensures forall x :: x in parsed.duplicates <==> multiset(parsed.rawSymbols)[x] >= 2
    ensures Distinct(parsed.duplicates)
  {
    var rawSymbols := Tidy(Split(value, []));
    var seen: set<string> := {};
    var duplicates: seq<string> := [];
    var symbols: seq<string> := [];
    for i := 0 to |rawSymbols|
      invariant symbols == FirstSeen(rawSymbols[..i])
      invariant duplicates == Repeated(rawSymbols[..i])
      invariant forall x :: x in seen <==> x in symbols
    {
      var symbol := rawSymbols[i];
      assert rawSymbols[..i + 1][..i] == rawSymbols[..i];
      if symbol in seen {
        if symbol !in duplicates {
          duplicates := duplicates + [symbol];
        }
        continue;
      }
      seen := seen + {symbol};
      symbols := symbols + [symbol];
    }
    assert rawSymbols[..|rawSymbols|] == rawSymbols;
    RepeatedMeaning(rawSymbols);
    FirstSeenDistinct(rawSymbols);
    parsed := Parsed(rawSymbols, symbols, duplicates, |rawSymbols| - |symbols|);
  }

  method MergeManualSymbols(existingSymbols: seq<string>, incoming: Parsed) returns (merged: Merged)
    ensures merged == Merge(existingSymbols, incoming)
    ensures merged.symbols == Parse(Join(existingSymbols, ",")).symbols + merged.addedSymbols
    ensures forall x :: x in merged.addedSymbols <==>
              x in incoming.symbols && x !in Parse(Join(existingSymbols, ",")).symbols
    ensures Distinct(incoming.duplicates) ==> incoming.duplicates <= merged.duplicates
  {
    var parsed := ParseManualSymbolEntry(Join(existingSymbols, ","));
    merged := MergeLoop(parsed.symbols, incoming);
    AddedAreNew(parsed.symbols, incoming);
    OldDuplicatesFirst(parsed.symbols, incoming);
  }

  lemma SeenStep(known: seq<string>, s: seq<string>, i: nat)
    requires i < |s|
    ensures s[i] in known + s[..i] ==>
              New(known, s, i + 1) == New(known, s, i) && Seen(known, s, i + 1) == Seen(known, s, i) + [s[i]]
    ensures s[i] !in known + s[..i] ==>
              New(known, s, i + 1) == New(known, s, i) + [s[i]] && Seen(known, s, i + 1) == Seen(known, s, i)
  {
  }

  lemma HeardStep(known: seq<string>, s: seq<string>, i: nat)
    requires i < |s|
    ensures known + s[..i + 1] == (known + s[..i]) + [s[i]]
  {
    assert s[..i + 1] == s[..i] + [s[i]];
    ConcatAssociative(known, s[..i], [s[i]]);
  }

  /** The JavaScript set holds what has been heard of so far. */
  ghost predicate Holds(members: set<string>, heard: seq<string>) {
    forall x :: x in members <==> x in heard
  }

  lemma HoldsOneMore(members: set<string>, heard: seq<string>, x: string)
    requires Holds(members, heard)
    ensures Holds(members + {x}, heard + [x])
    ensures x in members <==> x in heard
    ensures x in heard ==> Holds(members, heard + [x])
  {
  }

  method MergeLoop(existing: seq<string>, incoming: Parsed) returns (merged: Merged)
    ensures merged == MergeInto(existing, incoming)
  {
    var symbols := existing;
    var seen := set x | x in existing;
    var duplicates := FirstSeen(incoming.duplicates);
    var duplicateCount := incoming.duplicateCount;
    var addedSymbols: seq<string> := [];
    ghost var arrivals := incoming.duplicates;
    ghost var overlap: seq<string> := [];
    ghost var heard := existing;
    for i := 0 to |incoming.symbols|
      invariant addedSymbols == New(existing, incoming.symbols, i)
      invariant symbols == existing + addedSymbols
      invariant heard == existing + incoming.symbols[..i] && Holds(seen, heard)
      invariant overlap == Seen(existing, incoming.symbols, i)
      invariant arrivals == incoming.duplicates + overlap
      invariant duplicates == FirstSeen(arrivals)
      invariant duplicateCount == incoming.duplicateCount + |overlap|
    {
      var symbol := incoming.symbols[i];
      SeenStep(existing, incoming.symbols, i);
      HeardStep(existing, incoming.symbols, i);
      HoldsOneMore(seen, heard, symbol);
      heard := heard + [symbol];
      if symbol in seen {
        duplicates := AddToSet(duplicates, arrivals, symbol);
        ConcatAssociative(incoming.duplicates, overlap, [symbol]);
        overlap := overlap + [symbol];
        arrivals := arrivals + [symbol];
        duplicateCount := duplicateCount + 1;
        continue;
      }
      ConcatAssociative(existing, addedSymbols, [symbol]);
      seen := seen + {symbol};
      symbols := symbols + [symbol];
      addedSymbols := addedSymbols + [symbol];
    }
    merged := Merged(symbols, addedSymbols, duplicates, duplicateCount);
  }

  /** `set.add(x)` on a set that keeps insertion order. */
  method AddToSet(members: seq<string>, ghost arrivals: seq<string>, x: string) returns (r: seq<string>)
    requires members == FirstSeen(arrivals)
    ensures r == FirstSeen(arrivals + [x])
  {
    FirstSeenAppend(arrivals, x);
    r := if x in members then members else members + [x];
  }

  // ---------- What splitting means ----------

  lemma {:induction false} TidyConcat(a: seq<string>, b: seq<string>)
    ensures Tidy(a + b) == Tidy(a) + Tidy(b)
  {
    if a == [] {
      assert a + b == b;
    } else {
      TidyConcat(a[1..], b);
      assert (a + b)[1..] == a[1..] + b;
      var piece := UpperAll(Trim(a[0]));
      ConcatAssociative(if piece == [] then [] else [piece], Tidy(a[1..]), Tidy(b));
    }
  }

  /** Skipping a run of separators at once or one by one tidies to the same symbols. */
  lemma {:induction false} DropIsInvisible(s: string)
    ensures Raw(DropSeparators(s)) == Raw(s)
  {
    if s != [] && IsSeparator(s[0]) {
      DropIsInvisible(s[1..]);
      var rest := Split(DropSeparators(s[1..]), []);
      assert Split(s, []) == [[]] + rest && ([[]] + rest)[1..] == rest;
    }
  }

  /** One character at a time: a separator closes the word, anything else extends it. */
  lemma RawStep(s: string, word: string)
    requires s != []
    ensures !IsSeparator(s[0]) ==> RawFrom(s, word) == RawFrom(s[1..], word + [s[0]])
    ensures IsSeparator(s[0]) ==> RawFrom(s, word) == Tidy([word]) + Raw(s[1..])
  {
    if IsSeparator(s[0]) {
      DropIsInvisible(s[1..]);
      TidyConcat([word], Split(DropSeparators(s[1..]), []));
    }
  }

  /** A separator between two texts keeps their symbols apart. */
  lemma {:induction false} RawAcross(a: string, c: char, b: string, word: string)
    requires IsSeparator(c)
    ensures RawFrom(a + [c] + b, word) == RawFrom(a, word) + Raw(b)
    decreases |a|
  {
    var s := a + [c] + b;
    RawStep(s, word);
    if a == [] {
      assert s[0] == c && s[1..] == b;
    } else {
      assert s[0] == a[0] && s[1..] == a[1..] + [c] + b;
      RawStep(a, word);
      if IsSeparator(a[0]) {
        RawAcross(a[1..], c, b, []);
        ConcatAssociative(Tidy([word]), Raw(a[1..]), Raw(b));
      } else {
        RawAcross(a[1..], c, b, word + [a[0]]);
      }
    }
  }

  lemma {:induction false} SplitPlain(s: string, word: string)
    requires forall i :: 0 <= i < |s| ==> !IsSeparator(s[i])
    ensures Split(s, word) == [word + s]
    decreases |s|
  {
    if s == [] {
      assert word + s == word;
    } else {
      SplitPlain(s[1..], word + [s[0]]);
      assert word + [s[0]] + s[1..] == word + s;
    }
  }

  /** A symbol on its own is read as itself. */
  lemma RawOfSymbol(x: string)
    requires IsSymbol(x)
    ensures Raw(x) == [x]
  {
    SplitPlain(x, []);
    assert [] + x == x;
    NormalSymbol(x);
    TidyOne(x);
  }

  lemma NormalSymbol(x: string)
    requires IsSymbol(x)
    ensures UpperAll(Trim(x)) == x
  {
    TrimPlain(x);
  }

  lemma TrimPlain(x: string)
    requires x != [] && !IsSpace(x[0]) && !IsSpace(x[|x| - 1])
    ensures Trim(x) == x
  {
  }

  lemma TidyOne(x: string)
    ensures Tidy([x]) == if UpperAll(Trim(x)) == [] then [] else [UpperAll(Trim(x))]
  {
    assert [x][1..] == [];
  }

  lemma {:induction false} PiecesArePlain(s: string, word: string, i: nat, k: nat)
    requires forall j :: 0 <= j < |word| ==> !IsSeparator(word[j])
    requires i < |Split(s, word)| && k < |Split(s, word)[i]|
    ensures !IsSeparator(Split(s, word)[i][k])
    decreases |s|
  {
    if s != [] {
      if !IsSeparator(s[0]) {
        PiecesArePlain(s[1..], word + [s[0]], i, k);
      } else if i > 0 {
        PiecesArePlain(DropSeparators(s[1..]), [], i - 1, k);
      }
    }
  }

  lemma {:induction false} TidySymbols(pieces: seq<string>)
    requires forall i, k :: 0 <= i < |pieces| && 0 <= k < |pieces[i]| ==> !IsSeparator(pieces[i][k])
    ensures forall x :: x in Tidy(pieces) ==> IsSymbol(x)
  {
    if pieces != [] {
      var piece := pieces[0];
      if piece != [] {
        TrimPlain(piece);
      }
      forall i, k | 0 <= i < |pieces[1..]| && 0 <= k < |pieces[1..][i]|
        ensures !IsSeparator(pieces[1..][i][k])
      {
        assert !IsSeparator(pieces[i + 1][k]);
      }
      TidySymbols(pieces[1..]);
    }
  }

  /** Everything the parser returns is a symbol. */
  lemma {:induction false} RawAreSymbols(value: string)
    ensures forall x :: x in Raw(value) ==> IsSymbol(x)
  {
    forall i, k | 0 <= i < |Split(value, [])| && 0 <= k < |Split(value, [])[i]|
      ensures !IsSeparator(Split(value, [])[i][k])
    {
      PiecesArePlain(value, [], i, k);
    }
    TidySymbols(Split(value, []));
  }

  lemma RawAfterSpace(rest: string)
    ensures Raw([' '] + rest) == Raw(rest)
  {
    var tail := [' '] + rest;
    RawStep(tail, []);
    assert tail[1..] == rest;
    TidyOne([]);
  }

  /** A symbol, comma and space in front of a text put the symbol in front of its symbols. */
  lemma RawOfLead(x: string, rest: string)
    requires IsSymbol(x)
    ensures Raw(x + [','] + ([' '] + rest)) == [x] + Raw(rest)
  {
    RawAcross(x, ',', [' '] + rest, []);
    RawOfSymbol(x);
    RawAfterSpace(rest);
  }

  lemma JoinHead(list: seq<string>)
    requires |list| > 1
    ensures Join(list, ", ") == list[0] + [','] + ([' '] + Join(list[1..], ", "))
  {
  }

  lemma {:induction false} RawOfJoin(list: seq<string>)
    requires forall x :: x in list ==> IsSymbol(x)
    ensures Raw(Join(list, ", ")) == list
  {
    if |list| == 1 {
      RawOfSymbol(list[0]);
    } else if |list| > 1 {
      RawOfJoin(list[1..]);
      JoinHead(list);
      RawOfLead(list[0], Join(list[1..], ", "));
      assert list == [list[0]] + list[1..];
    }
  }

  // ---------- Parsing, formatting, merging ----------

  lemma {:induction false} RawFromEmptyIff(s: string, word: string)
    requires forall i :: 0 <= i < |word| ==> !IsSeparator(word[i])
    ensures RawFrom(s, word) == [] <==> word == [] && forall i :: 0 <= i < |s| ==> IsSeparator(s[i])
    decreases |s|
  {
    TidyOne(word);
    if word != [] {
      TrimPlain(word);
    }
    if s != [] {
      RawStep(s, word);
      if IsSeparator(s[0]) {
        RawFromEmptyIff(s[1..], []);
      } else {
        RawFromEmptyIff(s[1..], word + [s[0]]);
      }
    }
  }

  /** Nothing is parsed exactly from a text of separators. */
  lemma {:induction false} RawEmptyIff(value: string)
    ensures Raw(value) == [] <==> forall i :: 0 <= i < |value| ==> IsSeparator(value[i])
  {
    RawFromEmptyIff(value, []);
  }

  /** The list joined by bare commas, as the merge joins the symbols on screen. */
  lemma {:induction false} RawOfCommaJoin(list: seq<string>)
    requires forall x :: x in list ==> IsSymbol(x)
    ensures Raw(Join(list, ",")) == list
  {
    if |list| == 1 {
      RawOfSymbol(list[0]);
    } else if |list| > 1 {
      RawOfCommaJoin(list[1..]);
      RawOfSymbol(list[0]);
      RawAcross(list[0], ',', Join(list[1..], ","), []);
      assert list == [list[0]] + list[1..];
    }
  }

  lemma DashReadsAsSymbol()
    ensures Parse("-").symbols == ["-"]
  {
    RawOfSymbol("-");
    assert Distinct(["-"]);
    FirstSeenOfDistinct(["-"]);
  }

  lemma {:induction false} ListReadsBack(list: seq<string>)
    requires Distinct(list) && forall x :: x in list ==> IsSymbol(x)
    ensures Parse(Join(list, ", ")).symbols == list && Parse(Join(list, ", ")).duplicateCount == 0
  {
    RawOfJoin(list);
    FirstSeenOfDistinct(list);
  }

  lemma {:induction false} SymbolsAreListed(value: string)
    ensures Distinct(Parse(value).symbols) && forall x :: x in Parse(value).symbols ==> IsSymbol(x)
    ensures Parse(value).symbols == [] <==> Raw(value) == []
  {
    RawAreSymbols(value);
    FirstSeenDistinct(Raw(value));
    if Raw(value) != [] {
      assert Raw(value)[0] in FirstSeen(Raw(value));
    }
  }

  /** The printed list reads back exactly, unless the text was separators only. */
  lemma {:induction false} FormatRoundTrip(value: string)
    ensures Parse(Format(Parse(value))).symbols == Parse(value).symbols
       <==> exists i :: 0 <= i < |value| && !IsSeparator(value[i])
    ensures Parse(value).symbols == [] ==> Parse(Format(Parse(value))).symbols == ["-"]
    ensures Parse(value).symbols != [] ==> Parse(Format(Parse(value))).duplicateCount == 0
  {
    var symbols := Parse(value).symbols;
    RawEmptyIff(value);
    SymbolsAreListed(value);
    if symbols == [] {
      DashReadsAsSymbol();
    } else {
      ListReadsBack(symbols);
    }
  }

  /** One more symbol is heard: new ones go last, known ones change nothing. */
  lemma NewStep(known: seq<string>, s: seq<string>, k: nat)
    requires 0 < k <= |s|
    requires known + New(known, s, k - 1) == FirstSeen(known + s[..k - 1])
    ensures known + New(known, s, k) == FirstSeen((known + s[..k - 1]) + [s[k - 1]])
  {
    var x := s[k - 1];
    SeenStep(known, s, k - 1);
    FirstSeenAppend(known + s[..k - 1], x);
    ConcatAssociative(known, New(known, s, k - 1), [x]);
  }

  lemma {:induction false} NewIsFirstSeen(known: seq<string>, s: seq<string>, k: nat)
    requires Distinct(known) && k <= |s|
    ensures known + New(known, s, k) == FirstSeen(known + s[..k])
  {
    if k == 0 {
      FirstSeenOfDistinct(known);
      assert known + s[..0] == known && known + [] == known;
    } else {
      NewIsFirstSeen(known, s, k - 1);
      NewStep(known, s, k);
      HeardStep(known, s, k - 1);
    }
  }

  lemma {:induction false} SeenMembers(known: seq<string>, s: seq<string>, k: nat, x: string)
    requires Distinct(s) && k <= |s|
    ensures x in Seen(known, s, k) <==> x in s[..k] && x in known
  {
    if k > 0 {
      SeenMembers(known, s, k - 1, x);
      assert s[..k] == s[..k - 1] + [s[k - 1]];
      assert s[k - 1] !in s[..k - 1];
    }
  }

  /** A repeated member of a concatenation is repeated in a part, or is in both. */
  lemma {:induction false} RepeatedAcross(a: seq<string>, b: seq<string>, x: string)
    ensures x in Repeated(a + b) <==> x in Repeated(a) || x in Repeated(b) || (x in a && x in b)
  {
    RepeatedMeaning(a);
    RepeatedMeaning(b);
    RepeatedMeaning(a + b);
    assert multiset(a + b) == multiset(a) + multiset(b);
    assert x in a <==> multiset(a)[x] >= 1;
    assert x in b <==> multiset(b)[x] >= 1;
  }

  /**
   Adding the symbols of a second text to those on screen is reading both texts
   as one: same symbols, same order, and every duplicate counted once.
   */
  lemma {:induction false} MergeIsParseOfBoth(existing: seq<string>, b: string)
    ensures var both, merged := Parse(Join(existing, ",") + [','] + b), Merge(existing, Parse(b));
            && merged.symbols == both.symbols
            && Parse(Join(existing, ",")).duplicateCount + merged.duplicateCount == both.duplicateCount
  {
    var a := Join(existing, ",");
    var known, incoming := Parse(a).symbols, Parse(b).symbols;
    RawAcross(a, ',', b, []);
    FirstSeenDistinct(Raw(a));
    NewIsFirstSeen(known, incoming, |incoming|);
    assert incoming[..|incoming|] == incoming;
    FirstSeenEarly(Raw(a), incoming);
    FirstSeenLate(Raw(a), Raw(b));
  }

  lemma OverlapMembers(known: seq<string>, raw: seq<string>, x: string)
    ensures x in Seen(known, FirstSeen(raw), |FirstSeen(raw)|) <==> x in raw && x in known
  {
    var incoming := FirstSeen(raw);
    FirstSeenDistinct(raw);
    SeenMembers(known, incoming, |incoming|, x);
    assert incoming[..|incoming|] == incoming;
  }

  /** The duplicates reported are, each once, those of the second text and its symbols already on screen. */
  lemma {:induction false} MergedDuplicates(existing: seq<string>, b: string, x: string)
    ensures var merged := Merge(existing, Parse(b));
            && Distinct(merged.duplicates)
            && (x in merged.duplicates <==>
                x in Repeated(Raw(b)) || (x in Raw(b) && x in Raw(Join(existing, ","))))
  {
    var known, incoming := Parse(Join(existing, ",")).symbols, Parse(b).symbols;
    FirstSeenDistinct(Parse(b).duplicates + Seen(known, incoming, |incoming|));
    OverlapMembers(known, Raw(b), x);
  }

  /** Together with those on screen they are the duplicates of both texts read as one. */
  lemma {:induction false} DuplicatesOfBoth(existing: seq<string>, b: string, x: string)
    ensures var a := Join(existing, ",");
            x in Parse(a + [','] + b).duplicates <==>
            x in Parse(a).duplicates || x in Merge(existing, Parse(b)).duplicates
  {
    var a := Join(existing, ",");
    RawAcross(a, ',', b, []);
    RepeatedAcross(Raw(a), Raw(b), x);
    MergedDuplicates(existing, b, x);
  }

  /** No symbol is lost: each raw symbol is listed or counted as a duplicate. */
  lemma MergeConserves(existing: seq<string>, incoming: Parsed)
    ensures var merged := Merge(existing, incoming);
            |merged.symbols| + merged.duplicateCount
            == |Parse(Join(existing, ",")).symbols| + |incoming.symbols| + incoming.duplicateCount
  {
  }

  /** Symbols on screen survive being joined and parsed again. */
  lemma {:induction false} ScreenStays(known: seq<string>)
    requires Distinct(known) && forall x :: x in known ==> IsSymbol(x)
    ensures Parse(Join(known, ",")).symbols == known && Parse(Join(known, ",")).duplicateCount == 0
  {
    RawOfCommaJoin(known);
    FirstSeenOfDistinct(known);
  }

  lemma KnownThenNew(known: seq<string>, raw: seq<string>)
    requires Distinct(known)
    ensures known + New(known, FirstSeen(raw), |FirstSeen(raw)|) == FirstSeen(known + raw)
  {
    var incoming := FirstSeen(raw);
    NewIsFirstSeen(known, incoming, |incoming|);
    assert incoming[..|incoming|] == incoming;
    FirstSeenLate(known, raw);
  }

  /** What the merge of a second text adds up to, told from the symbols as typed. */
  lemma {:induction false} MergedText(known: seq<string>, b: string)
    requires Distinct(known) && forall x :: x in known ==> IsSymbol(x)
    ensures var merged := Merge(known, Parse(b));
            && merged.symbols == FirstSeen(known + Raw(b))
            && |merged.symbols| + merged.duplicateCount == |known| + |Raw(b)|
  {
    ScreenStays(known);
    KnownThenNew(known, Raw(b));
    assert Merge(known, Parse(b)) == MergeInto(known, Parse(b));
  }

  /**
   Two texts parsed and merged are the two texts parsed as one: same symbols, same
   order, every symbol typed either listed or counted as a duplicate.
   */
  lemma {:induction false} TwoTexts(a: string, b: string)
    ensures var both, merged := Parse(a + [','] + b), Merge(Parse(a).symbols, Parse(b));
            && merged.symbols == both.symbols
            && Parse(a).duplicateCount + merged.duplicateCount == both.duplicateCount
            && |merged.symbols| + Parse(a).duplicateCount + merged.duplicateCount == |Raw(a)| + |Raw(b)|
  {
    RawAcross(a, ',', b, []);
    SymbolsAreListed(a);
    MergedText(Parse(a).symbols, b);
    FirstSeenEarly(Raw(a), Raw(b));
  }

  /** Each duplicate of the two texts is reported by the parse of the first or by the merge. */
  lemma {:induction false} TwoTextsDuplicates(a: string, b: string, x: string)
    ensures x in Parse(a + [','] + b).duplicates <==>
            x in Parse(a).duplicates || x in Merge(Parse(a).symbols, Parse(b)).duplicates
  {
    RawAcross(a, ',', b, []);
    RepeatedAcross(Raw(a), Raw(b), x);
    SymbolsAreListed(a);
    RawOfCommaJoin(Parse(a).symbols);
    MergedDuplicates(Parse(a).symbols, b, x);
  }

  /** The duplicates list names the members that occur at least twice, each once. */
  lemma {:induction false} RepeatedMeaning(s: seq<string>)
    ensures Distinct(Repeated(s))
    ensures forall x :: x in Repeated(s) <==> multiset(s)[x] >= 2
  {
    if s != [] {
      var front, x := s[..|s| - 1], s[|s| - 1];
      RepeatedMeaning(front);
      assert s == front + [x];
      assert multiset(s) == multiset(front) + multiset{x};
      assert x in front <==> multiset(front)[x] >= 1;
    }
  }

  // ---------- In characters ----------

  /** Comma or white space, by code point. */
  predicate SeparatorCode(c: char) {
    c as int == 44 || c as int == 32 || 9 <= c as int <= 13
  }

  /** `x` is `s` with its lower-case letters raised. */
  predicate Raised(x: string, s: string) {
    |x| == |s|
    && forall i :: 0 <= i < |s| ==>
         if 97 <= s[i] as int <= 122 then x[i] as int == s[i] as int - 32 else x[i] == s[i]
  }

  lemma UpperIsRaised(s: string)
    ensures Raised(UpperAll(s), s)
  {
  }

  lemma RawOfPlain(s: string)
    requires s != [] && forall i :: 0 <= i < |s| ==> !IsSeparator(s[i])
    ensures Raw(s) == [UpperAll(s)]
  {
    SplitPlain(s, []);
    assert [] + s == s;
    TrimPlain(s);
    TidyOne(s);
  }

  /** A text without separators is one symbol: itself in upper case. */
  lemma PlainText(s: string)
    requires s != [] && forall i :: 0 <= i < |s| ==> !SeparatorCode(s[i])
    ensures |Raw(s)| == 1 && Raised(Raw(s)[0], s)
  {
    RawOfPlain(s);
    UpperIsRaised(s);
  }

  /** Each of the separators cuts a text in two. */
  lemma SeparatorCuts(a: string, c: char, b: string)
    requires SeparatorCode(c)
    ensures Raw(a + [c] + b) == Raw(a) + Raw(b)
  {
    RawAcross(a, c, b, []);
  }

  /** Symbols are printed one after the other, a comma and a space between them. */
  lemma Printed(parsed: Parsed, x: string, rest: seq<string>, more: Parsed)
    requires parsed.symbols == [x] + rest && more.symbols == rest
    ensures Format(parsed) == if rest == [] then x else x + ", " + Format(more)
  {
    assert parsed.symbols[1..] == rest;
  }

  lemma PrintedExample(parsed: Parsed)
    ensures parsed.symbols == ["SPY", "QQQ"] ==> Format(parsed) == "SPY, QQQ"
    ensures parsed.symbols == [] ==> Format(parsed) == "-"
  {
    if parsed.symbols == ["SPY", "QQQ"] {
      assert parsed.symbols[1..] == ["QQQ"];
      assert Join(["QQQ"], ", ") == "QQQ";
    }
  }

  lemma {:induction false} NewMembers(known: seq<string>, s: seq<string>, k: nat, x: string)
    requires k <= |s|
    ensures x in New(known, s, k) <==> x in s[..k] && x !in known
  {
    if k > 0 {
      NewMembers(known, s, k - 1, x);
      assert s[..k] == s[..k - 1] + [s[k - 1]];
    }
  }

  lemma AddedAreNew(known: seq<string>, incoming: Parsed)
    ensures forall x :: x in MergeInto(known, incoming).addedSymbols <==> x in incoming.symbols && x !in known
  {
    var n := |incoming.symbols|;
    assert incoming.symbols[..n] == incoming.symbols;
    forall x
      ensures x in New(known, incoming.symbols, n) <==> x in incoming.symbols && x !in known
    {
      NewMembers(known, incoming.symbols, n, x);
    }
  }

  lemma {:induction false} FirstSeenBegins(a: seq<string>, b: seq<string>)
    requires Distinct(a)
    ensures a <= FirstSeen(a + b)
  {
    if b == [] {
      assert a + b == a;
      FirstSeenOfDistinct(a);
    } else {
      var front, x := b[..|b| - 1], b[|b| - 1];
      FirstSeenBegins(a, front);
      assert a + b == (a + front) + [x];
      FirstSeenAppend(a + front, x);
    }
  }

  lemma OldDuplicatesFirst(known: seq<string>, incoming: Parsed)
    ensures Distinct(incoming.duplicates) ==> incoming.duplicates <= MergeInto(known, incoming).duplicates
  {
    if Distinct(incoming.duplicates) {
      FirstSeenBegins(incoming.duplicates, Seen(known, incoming.symbols, |incoming.symbols|));
    }
  }

  // ---------- Order of the duplicates ----------

  /** A duplicate once listed keeps its place: duplicates stand by their second occurrence. */
  lemma {:induction false} RepeatedInOrder(s: seq<string>, k: nat)
    requires k <= |s|
    ensures Repeated(s[..k]) <= Repeated(s)
  {
    if k == |s| {
      assert s[..k] == s;
    } else {
      var front := s[..|s| - 1];
      RepeatedInOrder(front, k);
      assert front[..k] == s[..k];
    }
  }

  /** So do the symbols a merge finds on screen, and those it adds. */
  lemma {:induction false} OverlapInOrder(known: seq<string>, s: seq<string>, k: nat, n: nat)
    requires k <= n <= |s|
    ensures Seen(known, s, k) <= Seen(known, s, n) && New(known, s, k) <= New(known, s, n)
  {
    if k < n {
      OverlapInOrder(known, s, k, n - 1);
    }
  }
}
