/** The email list of the bulk add-student form: `re.split('[,\n\r ]+', text)`,
    each piece stripped, empty pieces dropped (course/views.py). */
module EmailTokens {
  import opened Text

  /** The characters of the split pattern's class; a tab is not one of them. */
  predicate IsSeparator(c: char) {
    c == ',' || c == '\n' || c == '\r' || c == ' '
  }

  predicate SeparatorFree(s: string) {
    forall c :: c in s ==> !IsSeparator(c)
  }

  /** Index of the first separator, |s| when there is none. */
  function SeparatorIndex(s: string): (i: nat)
    ensures i <= |s|
    ensures forall k :: 0 <= k < i ==> !IsSeparator(s[k])
    ensures i < |s| ==> IsSeparator(s[i])
  {
    if s == [] || IsSeparator(s[0]) then 0 else 1 + SeparatorIndex(s[1..])
  }

  /** Drops the separator run at the front. */
  function SkipSeparators(s: string): (r: string)
    ensures |r| <= |s| && r == s[|s| - |r|..]
    ensures r == [] || !IsSeparator(r[0])
  {
    if s != [] && IsSeparator(s[0]) then SkipSeparators(s[1..]) else s
  }

  /** `re.split('[,\n\r ]+', s)`: the pieces between maximal separator runs; a run at
      either end yields an empty piece there. */
  function SplitRuns(s: string): (pieces: seq<string>)
    ensures pieces != []
    ensures forall p :: p in pieces ==> SeparatorFree(p)
    decreases |s|
  {
    var i := SeparatorIndex(s);
    if i == |s| then
      [s]
    else
      var rest := SkipSeparators(s[i..]);
      [s[..i]] + SplitRuns(rest)
  }

  /** `[p.strip() for p in pieces if p.strip()]`. */
  function Clean(pieces: seq<string>): (tokens: seq<string>)
    ensures forall t :: t in tokens ==> t != [] && IsStripped(t)
  {
    if pieces == [] then []
    else
      var t := Strip(pieces[0]);
      (if t != [] then [t] else []) + Clean(pieces[1..])
  }

  /** Stripping only removes characters, so separator-free pieces give separator-free tokens. */
  lemma {:induction false} CleanSeparatorFree(pieces: seq<string>)
    requires forall p :: p in pieces ==> SeparatorFree(p)
    ensures forall t :: t in Clean(pieces) ==> SeparatorFree(t)
    decreases |pieces|
  {
    if pieces != [] {
      assert pieces[0] in pieces;
      assert forall p :: p in pieces[1..] ==> p in pieces;
      CleanSeparatorFree(pieces[1..]);
    }
  }

  /** The email tokens of the form's text: non-empty, stripped, and free of commas,
      spaces, carriage returns and line feeds. */
  function Tokens(input: string): (tokens: seq<string>)
    ensures forall t :: t in tokens ==> t != [] && IsStripped(t) && SeparatorFree(t)
  {
    CleanSeparatorFree(SplitRuns(input));
    Clean(SplitRuns(input))
  }

  /** Text without separators is one token, its stripped self (so a tab inside an
      entry does not split it), or none when it is blank. */
  lemma TokensOfSeparatorFree(s: string)
    requires SeparatorFree(s)
    ensures Tokens(s) == if Strip(s) == [] then [] else [Strip(s)]
  {
    assert forall k :: 0 <= k < |s| ==> !IsSeparator(s[k]) by {
      assert forall k :: 0 <= k < |s| ==> s[k] in s;
    }
    assert SplitRuns(s) == [s];
    assert Clean([s]) == (if Strip(s) != [] then [Strip(s)] else []) + Clean([]);
  }

  /** Tokens written one after another with a separator between them. */
  function JoinBy(ws: seq<string>, sep: char): string {
    if ws == [] then []
    else if |ws| == 1 then ws[0]
    else ws[0] + [sep] + JoinBy(ws[1..], sep)
  }

  predicate WellFormedToken(w: string) {
    w != [] && IsStripped(w) && SeparatorFree(w)
  }

  lemma {:induction false} SeparatorIndexAfterFree(w: string, t: string)
    requires SeparatorFree(w)
    ensures SeparatorIndex(w + t) == |w| + SeparatorIndex(t)
    decreases |w|
  {
    if w == [] {
      assert w + t == t;
    } else {
      assert w[0] in w;
      assert (w + t)[0] == w[0];
      assert (w + t)[1..] == w[1..] + t;
      assert SeparatorFree(w[1..]) by {
        assert forall c :: c in w[1..] ==> c in w;
      }
      SeparatorIndexAfterFree(w[1..], t);
    }
  }

  /** A separator between a separator-free word and text that does not start with
      one cuts exactly there. */
  lemma SplitAfterSeparator(w: string, sep: char, rest: string)
    requires SeparatorFree(w) && IsSeparator(sep)
    requires rest != [] && !IsSeparator(rest[0])
    ensures SplitRuns(w + [sep] + rest) == [w] + SplitRuns(rest)
  {
    var s := w + [sep] + rest;
    assert s == w + ([sep] + rest);
    SeparatorIndexAfterFree(w, [sep] + rest);
    assert s[..|w|] == w;
    assert s[|w|..] == [sep] + rest;
    assert ([sep] + rest)[1..] == rest;
    assert SkipSeparators([sep] + rest) == rest;
  }

  lemma JoinByStart(ws: seq<string>, sep: char)
    requires ws != [] && ws[0] != []
    ensures JoinBy(ws, sep) != [] && JoinBy(ws, sep)[0] == ws[0][0]
  {
  }

  lemma {:induction false} SplitJoined(ws: seq<string>, sep: char)
    requires ws != [] && IsSeparator(sep)
    requires forall w :: w in ws ==> WellFormedToken(w)
    ensures SplitRuns(JoinBy(ws, sep)) == ws
    decreases |ws|
  {
    var w := ws[0];
    assert WellFormedToken(w);
    if |ws| == 1 {
      SeparatorIndexAfterFree(w, []);
      assert w + [] == w;
    } else {
      var tail := ws[1..];
      assert tail[0] in ws;
      assert WellFormedToken(tail[0]);
      assert tail[0][0] in tail[0];
      JoinByStart(tail, sep);
      SplitAfterSeparator(w, sep, JoinBy(tail, sep));
      assert forall v :: v in tail ==> v in ws;
      SplitJoined(tail, sep);
      assert ws == [w] + tail;
    }
  }

  lemma {:induction false} CleanWellFormed(ws: seq<string>)
    requires forall i :: 0 <= i < |ws| ==> WellFormedToken(ws[i])
    ensures Clean(ws) == ws
    decreases |ws|
  {
    if ws != [] {
      var w := ws[0];
      assert WellFormedToken(w);
      StripStripped(w);
      assert Clean(ws) == [w] + Clean(ws[1..]);
      CleanWellFormed(ws[1..]);
      assert ws == [w] + ws[1..];
    }
  }

  /** Tokens joined by any one separator character are read back exactly, in order. */
  lemma TokensRoundTrip(ws: seq<string>, sep: char)
    requires IsSeparator(sep)
    requires forall w :: w in ws ==> WellFormedToken(w)
    ensures Tokens(JoinBy(ws, sep)) == ws
  {
    if ws == [] {
      assert SplitRuns([]) == [[]];
      assert Strip([]) == [];
      assert Clean([[]]) == Clean([]);
    } else {
      SplitJoined(ws, sep);
      assert forall i :: 0 <= i < |ws| ==> ws[i] in ws;
      CleanWellFormed(ws);
    }
  }
}
