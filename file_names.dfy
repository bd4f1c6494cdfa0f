/** The conversion host's file-name handling: `safe_filename`, the split of a
    name into stem and suffix, and the collision-free rename of the primary
    produced file (`maybe_rename_primary`). A run directory is modelled as the
    finite set of names it holds. */
module FileNames {
  import opened Common

  /** Python's `str.isspace`: the characters `str.split()` and `str.strip()`
      treat as whitespace. */
  predicate IsSpace(c: char)
  {
    || c == ' '
    || ('\t' <= c <= '\r')
    || ('\U{1C}' <= c <= '\U{1F}')
    || c == '\U{85}' || c == '\U{A0}' || c == '\U{1680}'
    || ('\U{2000}' <= c <= '\U{200A}')
    || c == '\U{2028}' || c == '\U{2029}' || c == '\U{202F}' || c == '\U{205F}'
    || c == '\U{3000}'
  }

  /** The characters a Windows file name may not contain. */
  predicate IsForbidden(c: char)
  {
    c == '\\' || c == '/' || c == ':' || c == '*' || c == '?' || c == '"'
    || c == '<' || c == '>' || c == '|'
  }

  /** A character that may appear in a sanitised name. */
  predicate IsCleanChar(c: char)
  {
    !IsForbidden(c) && !IsSpace(c)
  }

  predicate IsClean(s: string)
  {
    forall i :: 0 <= i < |s| ==> IsCleanChar(s[i])
  }

  predicate NoSpace(s: string)
  {
    forall i :: 0 <= i < |s| ==> !IsSpace(s[i])
  }

  predicate NoForbidden(s: string)
  {
    forall i :: 0 <= i < |s| ==> !IsForbidden(s[i])
  }

  predicate AllSpace(s: string)
  {
    forall i :: 0 <= i < |s| ==> IsSpace(s[i])
  }

  /** The chained `replace` calls: every forbidden character becomes `_`. */
  function ReplaceForbidden(s: string): (r: string)
    ensures |r| == |s| && NoForbidden(r)
    ensures forall i :: 0 <= i < |s| ==> (IsForbidden(s[i]) ==> r[i] == '_') && (!IsForbidden(s[i]) ==> r[i] == s[i])
  {
    seq(|s|, i requires 0 <= i < |s| => if IsForbidden(s[i]) then '_' else s[i])
  }

  /** The non-whitespace characters of `s`, in order. */
  function DropSpaces(s: string): string
  {
    if s == [] then [] else (if IsSpace(s[0]) then [] else [s[0]]) + DropSpaces(s[1..])
  }

  function Concat(ws: seq<string>): string
  {
    if ws == [] then [] else ws[0] + Concat(ws[1..])
  }

  /** `"_".join(ws)`: the words interleaved with the gaps of `JoinGaps`,
      nothing before the first word, one `_` between each two, nothing after
      the last. */
  function JoinUnderscore(ws: seq<string>): (r: string)
    ensures ws == [] ==> r == ""
    ensures ws != [] ==> |r| == |Concat(ws)| + |ws| - 1 && ws[0] <= r
    ensures ws != [] ==> r == Interleave(JoinGaps(|ws|), ws)
  {
    if ws == [] then ""
    else if |ws| == 1 then
      assert Interleave(JoinGaps(1), ws) == "" + ws[0] + Interleave([""], []);
      ws[0]
    else
      var rest := JoinUnderscore(ws[1..]);
      JoinStep(ws, rest);
      ws[0] + "_" + rest
  }

  /** The gaps of `"_".join` over n words: empty at both ends, `_` between
      two words. */
  function JoinGaps(n: nat): (gs: seq<string>)
    requires n >= 1
    ensures |gs| == n + 1 && gs[0] == "" && gs[n] == ""
    ensures forall i :: 0 < i < n ==> gs[i] == "_"
  {
    if n == 1 then ["", ""] else ["", "_"] + JoinGaps(n - 1)[1..]
  }

  /** Putting the first word and `_` in front of the join of the others is
      the join of all of them. */
  lemma {:induction false} JoinStep(ws: seq<string>, rest: string)
    requires |ws| >= 2 && rest == Interleave(JoinGaps(|ws| - 1), ws[1..])
    ensures ws[0] + "_" + rest == Interleave(JoinGaps(|ws|), ws)
  {
    JoinGapsShift(|ws| - 1);
    InterleaveShift(JoinGaps(|ws|), JoinGaps(|ws| - 1), ws);
  }

  /** Past its first gap, the join of n + 1 words has the gaps of n words,
      the first one now `_`. */
  lemma JoinGapsShift(n: nat)
    requires n >= 1
    ensures JoinGaps(n + 1)[1..] == [['_'] + JoinGaps(n)[0]] + JoinGaps(n)[1..]
  {
    assert ['_'] + JoinGaps(n)[0] == "_";
  }

  /** With an empty first gap and a second gap of `_` before the gaps `h`,
      interleaving reads the first word, `_`, then the rest over `h`. */
  lemma {:induction false} InterleaveShift(g: seq<string>, h: seq<string>, ws: seq<string>)
    requires |ws| >= 1 && |h| == |ws| && |g| == |h| + 1 && g[0] == ""
    requires g[1..] == [['_'] + h[0]] + h[1..]
    ensures Interleave(g, ws) == ws[0] + "_" + Interleave(h, ws[1..])
  {
    InterleaveHead('_', h, ws[1..]);
    assert Interleave(g, ws) == g[0] + ws[0] + Interleave(g[1..], ws[1..]);
  }

  /** Length of the run of non-whitespace characters at the start of `s`. */
  function WordEnd(s: string): (n: nat)
    ensures n <= |s|
    ensures forall i :: 0 <= i < n ==> !IsSpace(s[i])
    ensures n == |s| || IsSpace(s[n])
  {
    if s == [] || IsSpace(s[0]) then 0 else 1 + WordEnd(s[1..])
  }

  /** Python's `s.split()` with no argument: the maximal whitespace-free runs. */
  function Words(s: string): (ws: seq<string>)
    ensures forall i :: 0 <= i < |ws| ==> ws[i] != "" && NoSpace(ws[i])
    ensures NoForbidden(s) ==> forall i :: 0 <= i < |ws| ==> IsClean(ws[i])
    ensures Concat(ws) == DropSpaces(s)
    decreases |s|
  {
    if s == [] then []
    else if IsSpace(s[0]) then
      DropSpacesLeadingSpace(s);
      Words(s[1..])
    else
      var n := WordEnd(s);
      WordThenRest(s, n);
      var rest := Words(s[n..]);
      ConcatCons(s[..n], rest);
      [s[..n]] + rest
  }

  /** Splitting off the leading word `s[..n]`: the word keeps all its
      characters and the rest is handled on its own. */
  lemma WordThenRest(s: string, n: nat)
    requires 0 < n <= |s| && NoSpace(s[..n])
    ensures DropSpaces(s) == s[..n] + DropSpaces(s[n..])
    ensures NoForbidden(s) ==> IsClean(s[..n]) && NoForbidden(s[n..])
  {
    assert s == s[..n] + s[n..];
    DropSpacesAppend(s[..n], s[n..]);
    DropSpacesOfNoSpace(s[..n]);
  }

  /** `gaps[0] + ws[0] + gaps[1] + ws[1] + ... + gaps[|ws|]` */
  function Interleave(gaps: seq<string>, ws: seq<string>): string
    requires |gaps| == |ws| + 1
  {
    if ws == [] then gaps[0] else gaps[0] + ws[0] + Interleave(gaps[1..], ws[1..])
  }

  /** `s` is the words `ws` separated by the whitespace runs `gaps`: each
      word is non-empty and whitespace-free, each gap is whitespace only,
      and the gaps between two words are not empty, so every word is a
      maximal run. The first and the last gap may be empty. */
  predicate SplitsInto(s: string, gaps: seq<string>, ws: seq<string>)
  {
    && |gaps| == |ws| + 1
    && (forall i :: 0 <= i < |gaps| ==> AllSpace(gaps[i]))
    && (forall i :: 0 < i < |ws| ==> gaps[i] != "")
    && (forall i :: 0 <= i < |ws| ==> ws[i] != "" && NoSpace(ws[i]))
    && Interleave(gaps, ws) == s
  }

  /** The whitespace runs around and between the words of `s`. */
  function Gaps(s: string): (gs: seq<string>)
    ensures |gs| >= 1
    ensures s != [] && IsSpace(s[0]) ==> gs[0] != ""
    decreases |s|
  {
    if s == [] then [""]
    else if IsSpace(s[0]) then
      var g := Gaps(s[1..]);
      [[s[0]] + g[0]] + g[1..]
    else
      [""] + Gaps(s[WordEnd(s)..])
  }

  /** `split()` finds words: `s` is its words separated by its gaps. */
  lemma {:induction false} WordsSplit(s: string)
    ensures SplitsInto(s, Gaps(s), Words(s))
    decreases |s|
  {
    if s != [] {
      if IsSpace(s[0]) {
        WordsSplit(s[1..]);
        SplitLeadingSpace(s);
      } else {
        var n := WordEnd(s);
        WordsSplit(s[n..]);
        SplitLeadingWord(s, Gaps(s[n..]), Words(s[n..]));
        WordsOfWord(s);
        assert Gaps(s) == [""] + Gaps(s[n..]);
      }
    }
  }

  lemma {:induction false} SplitLeadingSpace(s: string)
    requires s != [] && IsSpace(s[0])
    requires SplitsInto(s[1..], Gaps(s[1..]), Words(s[1..]))
    ensures SplitsInto(s, Gaps(s), Words(s))
  {
    DropSpacesLeadingSpace(s);
    assert Words(s) == Words(s[1..]);
    var g := Gaps(s[1..]);
    assert Gaps(s) == [[s[0]] + g[0]] + g[1..];
    SplitsSpace(s[0], s[1..], g, Words(s[1..]));
    assert [s[0]] + s[1..] == s;
  }

  lemma {:induction false} SplitLeadingWord(s: string, g: seq<string>, ws: seq<string>)
    requires s != [] && !IsSpace(s[0])
    requires SplitsInto(s[WordEnd(s)..], g, ws)
    ensures SplitsInto(s, [""] + g, [s[..WordEnd(s)]] + ws)
  {
    var n := WordEnd(s);
    SplitsWord(s[..n], s[n..], g, ws);
    assert s[..n] + s[n..] == s;
  }

  /** `split()` of a text starting with a word: the word, then the rest. */
  lemma {:induction false} WordsOfWord(s: string)
    requires s != [] && !IsSpace(s[0])
    ensures Words(s) == [s[..WordEnd(s)]] + Words(s[WordEnd(s)..])
  {
    WordThenRest(s, WordEnd(s));
  }

  /** A whitespace character in front joins the first gap. */
  lemma {:induction false} SplitsSpace(c: char, t: string, g: seq<string>, ws: seq<string>)
    requires IsSpace(c) && SplitsInto(t, g, ws)
    ensures SplitsInto([c] + t, [[c] + g[0]] + g[1..], ws)
  {
    var gs := [[c] + g[0]] + g[1..];
    assert AllSpace([c] + g[0]);
    assert forall i :: 0 < i < |gs| ==> gs[i] == g[i];
    InterleaveHead(c, g, ws);
  }

  /** A word in front, before whitespace or the end, becomes the first word. */
  lemma {:induction false} SplitsWord(w: string, t: string, g: seq<string>, ws: seq<string>)
    requires w != "" && NoSpace(w) && SplitsInto(t, g, ws)
    requires t == [] || IsSpace(t[0])
    ensures SplitsInto(w + t, [""] + g, [w] + ws)
  {
    var gs, ws' := [""] + g, [w] + ws;
    assert gs[1..] == g && ws'[1..] == ws;
    assert forall i :: 0 < i < |gs| ==> gs[i] == g[i - 1];
    assert forall i :: 0 < i < |ws'| ==> ws'[i] == ws[i - 1];
    if ws != [] {
      assert t == g[0] + ws[0] + Interleave(g[1..], ws[1..]);
      assert g[0] != "";
    }
    assert Interleave(gs, ws') == "" + w + Interleave(g, ws);
  }

  lemma {:induction false} InterleaveHead(c: char, g: seq<string>, ws: seq<string>)
    requires |g| == |ws| + 1
    ensures Interleave([[c] + g[0]] + g[1..], ws) == [c] + Interleave(g, ws)
  {
    var gs := [[c] + g[0]] + g[1..];
    assert gs[1..] == g[1..];
  }

  /** ... and no other splitting exists: any way of writing `s` as words
      separated by whitespace runs gives exactly the words of `split()`. */
  lemma {:induction false} WordsUnique(s: string, gaps: seq<string>, ws: seq<string>)
    requires SplitsInto(s, gaps, ws)
    ensures Words(s) == ws
    decreases |s|
  {
    if gaps[0] != "" {
      var gaps' := UniqueLeadingSpace(s, gaps, ws);
      WordsUnique(s[1..], gaps', ws);
    } else if ws != [] {
      var n := |ws[0]|;
      UniqueLeadingWord(s, gaps, ws);
      WordsOfWord(s);
      WordsUnique(s[n..], gaps[1..], ws[1..]);
      assert ws == [ws[0]] + ws[1..];
    } else {
      assert s == "";
    }
  }

  /** A splitting whose first gap is not empty starts with whitespace, and
      without that character it is a splitting of the rest. */
  lemma {:induction false} UniqueLeadingSpace(s: string, gaps: seq<string>, ws: seq<string>) returns (gaps': seq<string>)
    requires SplitsInto(s, gaps, ws) && gaps[0] != ""
    ensures s != [] && IsSpace(s[0]) && SplitsInto(s[1..], gaps', ws)
  {
    gaps' := [gaps[0][1..]] + gaps[1..];
    assert gaps'[1..] == gaps[1..];
    assert forall i :: 0 < i < |gaps'| ==> gaps'[i] == gaps[i];
    assert AllSpace(gaps'[0]);
    if ws == [] {
      assert s == gaps[0];
    } else {
      assert s == gaps[0] + ws[0] + Interleave(gaps[1..], ws[1..]);
      assert Interleave(gaps', ws) == gaps[0][1..] + ws[0] + Interleave(gaps[1..], ws[1..]);
    }
    assert s[0] == gaps[0][0] && s[1..] == Interleave(gaps', ws);
  }

  /** A splitting whose first gap is empty starts with its first word, which
      is the leading run of non-whitespace characters; what follows is a
      splitting of the rest. */
  lemma {:induction false} UniqueLeadingWord(s: string, gaps: seq<string>, ws: seq<string>)
    requires SplitsInto(s, gaps, ws) && gaps[0] == "" && ws != []
    ensures s != [] && !IsSpace(s[0]) && WordEnd(s) == |ws[0]| && s[..|ws[0]|] == ws[0]
    ensures SplitsInto(s[|ws[0]|..], gaps[1..], ws[1..])
  {
    var w, rest := ws[0], Interleave(gaps[1..], ws[1..]);
    assert s == w + rest;
    assert forall i :: 0 < i < |ws[1..]| ==> gaps[1..][i] == gaps[i + 1];
    assert SplitsInto(rest, gaps[1..], ws[1..]);
    if ws[1..] != [] {
      assert rest == gaps[1] + ws[1] + Interleave(gaps[2..], ws[2..]);
      assert rest[0] == gaps[1][0];
    } else {
      assert rest == gaps[1];
    }
    WordEndOf(w, rest);
    assert s[..|w|] == w && s[|w|..] == rest;
  }

  /** A word followed by whitespace or nothing ends where the word ends. */
  lemma {:induction false} WordEndOf(w: string, rest: string)
    requires w != "" && NoSpace(w) && (rest == [] || IsSpace(rest[0]))
    ensures WordEnd(w + rest) == |w|
    decreases |w|
  {
    assert (w + rest)[0] == w[0] && (w + rest)[1..] == w[1..] + rest;
    if |w| > 1 {
      WordEndOf(w[1..], rest);
    } else {
      assert w[1..] + rest == rest;
    }
  }

  lemma ConcatCons(w: string, rest: seq<string>)
    ensures Concat([w] + rest) == w + Concat(rest)
  {
  }

  lemma DropSpacesLeadingSpace(s: string)
    requires s != [] && IsSpace(s[0])
    ensures DropSpaces(s) == DropSpaces(s[1..])
  {
  }

  lemma {:induction false} DropSpacesAppend(a: string, b: string)
    ensures DropSpaces(a + b) == DropSpaces(a) + DropSpaces(b)
  {
    if a != [] {
      assert (a + b)[0] == a[0];
      assert (a + b)[1..] == a[1..] + b;
      DropSpacesAppend(a[1..], b);
      var h := if IsSpace(a[0]) then [] else [a[0]];
      calc {
        DropSpaces(a + b);
        h + DropSpaces(a[1..] + b);
        h + (DropSpaces(a[1..]) + DropSpaces(b));
        (h + DropSpaces(a[1..])) + DropSpaces(b);
      }
    } else {
      assert a + b == b;
    }
  }

  lemma {:induction false} DropSpacesOfNoSpace(a: string)
    requires NoSpace(a)
    ensures DropSpaces(a) == a
  {
    if a != [] {
      DropSpacesOfNoSpace(a[1..]);
    }
  }

  /** `DropSpaces(s)` is empty exactly when `s` is whitespace only. */
  lemma {:induction false} DropSpacesEmpty(s: string)
    ensures DropSpaces(s) == [] <==> AllSpace(s)
  {
    if s != [] {
      DropSpacesEmpty(s[1..]);
      assert AllSpace(s) <==> IsSpace(s[0]) && AllSpace(s[1..]);
    }
  }

  lemma ConcatEmpty(ws: seq<string>)
    requires forall i :: 0 <= i < |ws| ==> ws[i] != ""
    ensures Concat(ws) == [] <==> ws == []
  {
  }

  lemma {:induction false} JoinClean(ws: seq<string>)
    requires forall i :: 0 <= i < |ws| ==> IsClean(ws[i])
    ensures IsClean(JoinUnderscore(ws))
  {
    if |ws| > 1 {
      JoinClean(ws[1..]);
      var rest := JoinUnderscore(ws[1..]);
      assert IsClean(ws[0] + "_");
      assert JoinUnderscore(ws) == (ws[0] + "_") + rest;
    }
  }

  lemma JoinEmpty(ws: seq<string>)
    requires forall i :: 0 <= i < |ws| ==> ws[i] != ""
    ensures JoinUnderscore(ws) == "" <==> ws == []
  {
  }

  /** The input to `safe_filename` as a string: a missing (None) name is "". */
  function NameText(name: Option<string>): (r: string)
    ensures r == OrDefault(name, "")
  {
    if name.None? then "" else name.value
  }

  /** `safe_filename`. The initial `strip()` is subsumed by `split()`, which
      already ignores leading and trailing whitespace. */
  function SafeFilename(name: Option<string>): (r: string)
    ensures IsClean(r)
    ensures r == "" <==> AllSpace(NameText(name))
    ensures r == JoinUnderscore(Words(ReplaceForbidden(NameText(name))))
  {
    var s := ReplaceForbidden(NameText(name));
    var ws := Words(s);
    JoinClean(ws);
    JoinEmpty(ws);
    ConcatEmpty(ws);
    DropSpacesEmpty(s);
    assert forall i :: 0 <= i < |s| ==> IsSpace(s[i]) == IsSpace(NameText(name)[i]);
    assert AllSpace(s) <==> AllSpace(NameText(name));
    JoinUnderscore(ws)
  }

  /** Sanitising twice is the same as sanitising once. */
  lemma SafeFilenameIdempotent(name: Option<string>)
    ensures SafeFilename(Some(SafeFilename(name))) == SafeFilename(name)
  {
  }

  // ---------------------------------------------------------------------
  // Path.stem and Path.suffix

  /** `name.rfind('.')`: the index of the last dot, or -1. */
  function LastDot(name: string): (i: int)
    ensures -1 <= i < |name|
    ensures i >= 0 ==> name[i] == '.'
    ensures forall j :: i < j < |name| ==> name[j] != '.'
  {
    if name == [] then -1
    else if name[|name| - 1] == '.' then |name| - 1
    else LastDot(name[..|name| - 1])
  }

  /** `(Path(name).stem, Path(name).suffix)`: the suffix starts at the last
      dot, unless that dot is the first or the last character. */
  function SplitSuffix(name: string): (r: (string, string))
    ensures r.0 + r.1 == name
    ensures r.1 == "" || (|r.1| >= 2 && r.1[0] == '.' && r.0 != "")
    ensures forall j :: 0 < j < |r.1| ==> r.1[j] != '.'
    ensures r.1 == "" ==> LastDot(name) <= 0 || LastDot(name) == |name| - 1
  {
    var i := LastDot(name);
    if 0 < i < |name| - 1 then (name[..i], name[i..]) else (name, "")
  }

  // ---------------------------------------------------------------------
  // Decimal numerals, as produced by an f-string for a positive int

  function DigitChar(d: nat): char
    requires d < 10
  {
    (48 + d) as char
  }

  predicate IsDigit(c: char)
  {
    48 <= c as int <= 57
  }

  function Decimal(n: nat): (s: string)
    ensures |s| >= 1
    ensures forall i :: 0 <= i < |s| ==> IsDigit(s[i])
    ensures s[0] == '0' <==> n == 0
  {
    if n < 10 then [DigitChar(n)] else Decimal(n / 10) + [DigitChar(n % 10)]
  }

  function ParseDecimal(s: string): nat
    requires forall i :: 0 <= i < |s| ==> IsDigit(s[i])
  {
    if s == [] then 0
    else
      assert IsDigit(s[|s| - 1]);
      10 * ParseDecimal(s[..|s| - 1]) + (s[|s| - 1] as int - 48)
  }

  /** Reading back a numeral gives the number it was written from. */
  lemma {:induction false} DecimalRoundTrip(n: nat)
    ensures ParseDecimal(Decimal(n)) == n
  {
    if n >= 10 {
      DecimalRoundTrip(n / 10);
      var s := Decimal(n);
      assert s[..|s| - 1] == Decimal(n / 10);
    }
  }

  lemma DecimalInjective(a: nat, b: nat)
    requires Decimal(a) == Decimal(b)
    ensures a == b
  {
    DecimalRoundTrip(a);
    DecimalRoundTrip(b);
  }

  // ---------------------------------------------------------------------
  // maybe_rename_primary

  /** The k-th collision candidate `f"{stem}_{k}{suffix}"`. */
  function Candidate(stem: string, suffix: string, k: nat): (r: string)
  {
    stem + "_" + Decimal(k) + suffix
  }

  /** The candidate reads, in order, the stem, `_`, the counter's numeral
      and the suffix. */
  lemma CandidateParts(stem: string, suffix: string, k: nat)
    ensures var r := Candidate(stem, suffix, k);
      && |r| == |stem| + 1 + |Decimal(k)| + |suffix|
      && r[..|stem|] == stem && r[|stem|] == '_'
      && r[|stem| + 1..|stem| + 1 + |Decimal(k)|] == Decimal(k)
      && r[|r| - |suffix|..] == suffix
  {
  }

  /** Different counters give different candidate names. */
  lemma CandidateInjective(stem: string, suffix: string, a: nat, b: nat)
    requires a != b
    ensures Candidate(stem, suffix, a) != Candidate(stem, suffix, b)
  {
    if Candidate(stem, suffix, a) == Candidate(stem, suffix, b) {
      CandidateParts(stem, suffix, a);
      CandidateParts(stem, suffix, b);
      var ca, cb := Candidate(stem, suffix, a), Candidate(stem, suffix, b);
      var lo := |stem| + 1;
      assert |Decimal(a)| == |Decimal(b)|;
      assert Decimal(a) == ca[lo..lo + |Decimal(a)|];
      assert Decimal(b) == cb[lo..lo + |Decimal(b)|];
      DecimalInjective(a, b);
    }
  }

  /** `k` is the smallest counter from 1 whose candidate is not in `dir`. */
  ghost predicate SmallestFree(dir: set<string>, stem: string, suffix: string, k: nat)
  {
    && k >= 1
    && Candidate(stem, suffix, k) !in dir
    && forall j :: 1 <= j < k ==> Candidate(stem, suffix, j) in dir
  }

  /** The collision search of `maybe_rename_primary`: try `stem_k + suffix`
      for k = 1, 2, ... until one is not in `dir`. It ends because `dir` is
      finite and the candidates are all different. */
  method FreeCounter(dir: set<string>, stem: string, suffix: string) returns (k: nat)
    ensures SmallestFree(dir, stem, suffix, k)
  {
    k := 1;
    ghost var tried: set<string> := {};
    while true
      invariant k >= 1
      invariant tried <= dir
      invariant forall j :: 1 <= j < k ==> Candidate(stem, suffix, j) in tried
      invariant forall t :: t in tried ==> exists j :: 1 <= j < k && t == Candidate(stem, suffix, j)
      decreases dir - tried
    {
      var candidate := Candidate(stem, suffix, k);
      if candidate !in dir {
        return;
      }
      forall j | 1 <= j < k
        ensures Candidate(stem, suffix, j) != candidate
      {
        CandidateInjective(stem, suffix, j, k);
      }
      tried := tried + {candidate};
      k := k + 1;
    }
  }

  /** `maybe_rename_primary`: the run directory holds the names in `dir`;
      `produced` lists the produced files, most recent first; `requested` is
      the rename hint. Returns the primary file's final name and the names in
      the directory afterwards. */
  method MaybeRenamePrimary(dir: set<string>, produced: seq<string>, requested: Option<string>)
    returns (primary: Option<string>, after: set<string>)
    ensures primary.None? <==> produced == []
    ensures produced == [] ==> after == dir
    ensures produced != [] && SafeFilename(requested) == "" ==>
      primary == Some(produced[0]) && after == dir
    ensures produced != [] && SafeFilename(requested) != "" && SafeFilename(requested) !in dir ==>
      primary == Some(SafeFilename(requested))
    ensures produced != [] && SafeFilename(requested) != "" && SafeFilename(requested) in dir ==>
      var (stem, suffix) := SplitSuffix(SafeFilename(requested));
      exists k :: SmallestFree(dir, stem, suffix, k) && primary == Some(Candidate(stem, suffix, k))
    ensures produced != [] && SafeFilename(requested) != "" ==>
      primary.Some? && primary.value !in dir && after == dir - {produced[0]} + {primary.value}
  {
    if produced == [] {
      return None, dir;
    }
    var first := produced[0];
    if requested.None? || requested.value == "" {
      return Some(first), dir;
    }
    var req := SafeFilename(requested);
    if req == "" {
      return Some(first), dir;
    }
    var target := req;
    if req in dir {
      var (stem, suffix) := SplitSuffix(req);
      var k := FreeCounter(dir, stem, suffix);
      target := Candidate(stem, suffix, k);
    }
    primary := Some(target);
    after := dir - {first} + {target};
  }
}
