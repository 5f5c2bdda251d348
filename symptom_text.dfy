/**
 * The guard the submit handler puts on the symptom description: no text
 * means nothing happens, and a description of fewer than five words is an
 * input error. Words are what `text.trim().split(/\s+/)` yields.
 */
module SymptomText {
  import opened Wrappers

  /** The fewest words a description may have. */
  const MinWords: nat := 5

  /**
   * The characters `trim` removes and `\s` matches: ECMAScript's WhiteSpace
   * (tab, vertical tab, form feed, the byte-order mark and the space
   * separators) and LineTerminator code points.
   */
  predicate IsSpace(c: char)
  {
    || c == '\t' || c == '\n' || c == '\U{B}' || c == '\U{C}' || c == '\r'
    || c == ' ' || c == '\U{A0}' || c == '\U{1680}'
    || ('\U{2000}' <= c <= '\U{200A}')
    || c == '\U{2028}' || c == '\U{2029}' || c == '\U{202F}' || c == '\U{205F}'
    || c == '\U{3000}' || c == '\U{FEFF}'
  }

  /** The ASCII whitespace characters are in the class, and no visible ASCII character is. */
  lemma WhitespaceClass(c: char)
    ensures c == ' ' || c == '\t' || c == '\n' || c == '\r' ==> IsSpace(c)
    ensures '!' <= c <= '~' ==> !IsSpace(c)
  {
  }

  /** `s` holds no whitespace character. */
  predicate NoSpace(s: string)
  {
    forall i :: 0 <= i < |s| ==> !IsSpace(s[i])
  }

  /** `s` is made of whitespace characters only (possibly none). */
  predicate AllSpace(s: string)
  {
    forall i :: 0 <= i < |s| ==> IsSpace(s[i])
  }

  /** Drops the leading whitespace: the suffix of `s` that starts at its first non-space. */
  function TrimStart(s: string): (r: string)
    ensures |r| <= |s| && r == s[|s| - |r|..]
    ensures AllSpace(s[..|s| - |r|])
    ensures r != [] ==> !IsSpace(r[0])
  {
    if s != [] && IsSpace(s[0]) then
      var r := TrimStart(s[1..]);
      assert s[..|s| - |r|] == [s[0]] + s[1..][..|s| - 1 - |r|];
      assert s[|s| - |r|..] == s[1..][|s| - 1 - |r|..];
      r
    else s
  }

  /** Drops the trailing whitespace: the prefix of `s` that ends at its last non-space. */
  function TrimEnd(s: string): (r: string)
    ensures |r| <= |s| && r == s[..|r|]
    ensures AllSpace(s[|r|..])
    ensures r != [] ==> !IsSpace(r[|r| - 1])
  {
    if s != [] && IsSpace(s[|s| - 1]) then
      var r := TrimEnd(s[..|s| - 1]);
      assert s[|r|..] == s[..|s| - 1][|r|..] + [s[|s| - 1]];
      assert s[..|r|] == s[..|s| - 1][..|r|];
      r
    else s
  }

  /** `String.prototype.trim`. */
  function Trim(s: string): (r: string)
    ensures r == [] <==> AllSpace(s)
    ensures r != [] ==> !IsSpace(r[0]) && !IsSpace(r[|r| - 1])
  {
    var t := TrimStart(s);
    var r := TrimEnd(t);
    assert t != [] ==> t[0] == s[|s| - |t|];
    assert t == [] ==> s[..|s| - |t|] == s;
    assert r == [] ==> t[|r|..] == t;
    assert r != [] ==> r[0] == t[0];
    r
  }

  /** Position of the first whitespace character of `s`, or `|s|` when there is none. */
  function FirstSpace(s: string): (i: nat)
    ensures i <= |s| && NoSpace(s[..i])
    ensures i < |s| ==> IsSpace(s[i])
  {
    if s == [] || IsSpace(s[0]) then 0 else 1 + FirstSpace(s[1..])
  }

  /**
   * `s.split(/\s+/)`: the pieces between maximal whitespace runs. A leading or
   * trailing run yields an empty first or last piece, and `""` splits to `[""]`.
   */
  function Split(s: string): (pieces: seq<string>)
    ensures |pieces| >= 1
    ensures forall k :: 0 <= k < |pieces| ==> NoSpace(pieces[k])
    decreases |s|
  {
    var i := FirstSpace(s);
    if i == |s| then [s]
    else
      var rest := TrimStart(s[i..]);
      assert s[i..] != [] && IsSpace(s[i..][0]);
      [s[..i]] + Split(rest)
  }

  /** `text.trim().split(/\s+/).length`. */
  function WordCount(text: string): (n: nat)
    ensures n >= 1
    ensures AllSpace(text) ==> n == 1
  {
    |Split(Trim(text))|
  }

  /** What the guard decides before anything is sent. */
  datatype TextVerdict =
    | NoText                    // `if (!text) return;`
    | TooFewWords(count: nat)   // the "describe in at least 5 words" pop-up
    | Described

  /** The guard at the top of the submit handler. */
  function CheckSymptoms(text: Option<string>): (v: TextVerdict)
    ensures v.NoText? <==> text == None || text == Some("")
    ensures v.TooFewWords? <==> text.Some? && text.value != "" && WordCount(text.value) < MinWords
    ensures v.TooFewWords? ==> v.count == WordCount(text.value) && 1 <= v.count < MinWords
    ensures v.Described? ==> MinWords <= WordCount(text.value)
  {
    match text
    case None => NoText
    case Some(t) =>
      if t == "" then NoText
      else
        var n := WordCount(t);
        if n < MinWords then TooFewWords(n) else Described
  }

  /** Non-empty words joined by non-empty whitespace runs: `ws[0] seps[0] ws[1] ... ws[n]`. */
  function Interleave(ws: seq<string>, seps: seq<string>): string
    requires |ws| == |seps| + 1
    decreases |seps|
  {
    if seps == [] then ws[0] else ws[0] + seps[0] + Interleave(ws[1..], seps[1..])
  }

  predicate IsWord(w: string)
  {
    w != [] && NoSpace(w)
  }

  predicate IsSeparator(sep: string)
  {
    sep != [] && AllSpace(sep)
  }

  /** Skipping a whitespace run lands on the text behind it. */
  lemma {:induction false} TrimStartSkips(sep: string, t: string)
    requires AllSpace(sep)
    requires t != [] && !IsSpace(t[0])
    ensures TrimStart(sep + t) == t
    decreases |sep|
  {
    if sep == [] {
      assert sep + t == t;
    } else {
      assert (sep + t)[0] == sep[0];
      assert (sep + t)[1..] == sep[1..] + t;
      TrimStartSkips(sep[1..], t);
    }
  }

  /** Interleaved words start and end with a non-space. */
  lemma {:induction false} InterleaveEnds(ws: seq<string>, seps: seq<string>)
    requires |ws| == |seps| + 1
    requires forall k :: 0 <= k < |ws| ==> IsWord(ws[k])
    ensures IsWord(ws[0]) && IsWord(ws[|ws| - 1])
    ensures Interleave(ws, seps) != []
    ensures Interleave(ws, seps)[0] == ws[0][0]
    ensures Interleave(ws, seps)[|Interleave(ws, seps)| - 1] == ws[|ws| - 1][|ws[|ws| - 1]| - 1]
    decreases |seps|
  {
    if seps != [] {
      assert IsWord(ws[1..][0]);
      InterleaveEnds(ws[1..], seps[1..]);
      var tail := Interleave(ws[1..], seps[1..]);
      assert Interleave(ws, seps) == ws[0] + seps[0] + tail;
    }
  }

  /** A single word splits to itself. */
  lemma SplitWord(w: string)
    requires IsWord(w)
    ensures Split(w) == [w]
  {
  }

  /** The first whitespace after a word is the one that ends it. */
  lemma FirstSpaceAfterWord(w: string, u: string)
    requires NoSpace(w)
    requires u != [] && IsSpace(u[0])
    ensures FirstSpace(w + u) == |w|
  {
    var s := w + u;
    assert s[|w|] == u[0];
    assert forall j :: 0 <= j < |w| ==> s[j] == w[j];
  }

  /** A word, a whitespace run and a text starting with a non-space: the word is the first piece. */
  lemma SplitAfterWord(w: string, sep: string, tail: string)
    requires IsWord(w) && IsSeparator(sep)
    requires tail != [] && !IsSpace(tail[0])
    ensures Split(w + sep + tail) == [w] + Split(tail)
  {
    var u := sep + tail;
    var s := w + u;
    assert w + sep + tail == s;
    assert u[0] == sep[0];
    FirstSpaceAfterWord(w, u);
    assert s[..|w|] == w;
    assert s[|w|..] == u;
    TrimStartSkips(sep, tail);
  }

  /** Splitting undoes joining: whatever whitespace runs separate the words, `split` recovers them. */
  lemma {:induction false} SplitInterleave(ws: seq<string>, seps: seq<string>)
    requires |ws| == |seps| + 1
    requires forall k :: 0 <= k < |ws| ==> IsWord(ws[k])
    requires forall k :: 0 <= k < |seps| ==> IsSeparator(seps[k])
    ensures Split(Interleave(ws, seps)) == ws
    decreases |seps|
  {
    if seps == [] {
      SplitWord(ws[0]);
    } else {
      var tail := Interleave(ws[1..], seps[1..]);
      InterleaveEnds(ws[1..], seps[1..]);
      assert IsWord(ws[0]) && IsSeparator(seps[0]);
      SplitAfterWord(ws[0], seps[0], tail);
      SplitInterleave(ws[1..], seps[1..]);
      assert ws == [ws[0]] + ws[1..];
    }
  }

  /** Trimming removes exactly the whitespace padding around a text with non-space ends. */
  lemma TrimPadded(lead: string, mid: string, trail: string)
    requires AllSpace(lead) && AllSpace(trail)
    requires mid != [] && !IsSpace(mid[0]) && !IsSpace(mid[|mid| - 1])
    ensures Trim(lead + mid + trail) == mid
  {
    var s := lead + mid + trail;
    TrimStartSkips(lead, mid + trail);
    assert lead + (mid + trail) == s;
    TrimEndSkips(mid, trail);
  }

  /** Mirror of TrimStartSkips for the right end. */
  lemma {:induction false} TrimEndSkips(t: string, sep: string)
    requires AllSpace(sep)
    requires t != [] && !IsSpace(t[|t| - 1])
    ensures TrimEnd(t + sep) == t
    decreases |sep|
  {
    if sep == [] {
      assert t + sep == t;
    } else {
      var s := t + sep;
      assert s[|s| - 1] == sep[|sep| - 1];
      assert s[..|s| - 1] == t + sep[..|sep| - 1];
      TrimEndSkips(t, sep[..|sep| - 1]);
    }
  }

  /**
   * The guard counts words: a description made of the words `ws`, separated by
   * any whitespace runs and padded by any whitespace, counts `|ws|`.
   */
  lemma WordCountCountsWords(lead: string, ws: seq<string>, seps: seq<string>, trail: string)
    requires AllSpace(lead) && AllSpace(trail)
    requires |ws| == |seps| + 1
    requires forall k :: 0 <= k < |ws| ==> IsWord(ws[k])
    requires forall k :: 0 <= k < |seps| ==> IsSeparator(seps[k])
    ensures Split(Trim(lead + Interleave(ws, seps) + trail)) == ws
    ensures WordCount(lead + Interleave(ws, seps) + trail) == |ws|
  {
    InterleaveEnds(ws, seps);
    assert IsWord(ws[|ws| - 1]);
    TrimPadded(lead, Interleave(ws, seps), trail);
    SplitInterleave(ws, seps);
  }

  /** A whitespace-only description trims to `""`, which splits to one empty piece. */
  lemma BlankTextCountsOne(text: string)
    requires text != [] && AllSpace(text)
    ensures Split(Trim(text)) == [""]
    ensures CheckSymptoms(Some(text)) == TooFewWords(1)
  {
  }

  /**
   * The guard's verdict on a description of `|ws|` words: at least five
   * words pass, fewer are an input error carrying the count.
   */
  lemma GuardCountsWords(lead: string, ws: seq<string>, seps: seq<string>, trail: string)
    requires AllSpace(lead) && AllSpace(trail)
    requires |ws| == |seps| + 1
    requires forall k :: 0 <= k < |ws| ==> IsWord(ws[k])
    requires forall k :: 0 <= k < |seps| ==> IsSeparator(seps[k])
    ensures CheckSymptoms(Some(lead + Interleave(ws, seps) + trail))
         == if |ws| < MinWords then TooFewWords(|ws|) else Described
  {
    WordCountCountsWords(lead, ws, seps, trail);
    InterleaveEnds(ws, seps);
    assert |lead + Interleave(ws, seps) + trail| > 0;
  }
}
