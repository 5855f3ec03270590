/**
 * The command-line helpers of the bpf2go code generator: splitting an
 * argument list at "--", splitting a flag string into shell-like words,
 * and upper-casing the first rune of an identifier.
 *
 * Strings are sequences of runes (Dafny `char`s are Unicode scalar values),
 * which is what Go's `range` over a string yields for valid UTF-8.
 */
module Bpf2goTools {

  /* ---------------------------------------------------------------------
   * splitCFlagsFromArgs
   * ------------------------------------------------------------------- */

  /** The arguments before the first "--" and the C flags after it. */
  datatype ArgSplit = ArgSplit(args: seq<string>, cflags: seq<string>)

  /** Index of the first occurrence of `x` in `s`, or |s| if there is none. */
  function FirstIndexOf(s: seq<string>, x: string): (i: nat)
    ensures i <= |s|
    ensures i < |s| ==> s[i] == x
    ensures forall j :: 0 <= j < i ==> s[j] != x
  {
    if s == [] then 0
    else if s[0] == x then 0
    else 1 + FirstIndexOf(s[1..], x)
  }

  /**
   * Splits `input` at its first "--": everything before it are the arguments,
   * everything after it the C flags. Without a "--" all of `input` are
   * arguments and there are no C flags (Go's nil slice is the empty
   * sequence here).
   */
  function SplitCFlagsFromArgs(input: seq<string>): (r: ArgSplit)
    ensures "--" !in input ==> r == ArgSplit(input, [])
    ensures "--" in input ==> r.args + ["--"] + r.cflags == input && "--" !in r.args
    ensures forall i :: 0 <= i < |input| && input[i] == "--" && "--" !in input[..i] ==>
              r == ArgSplit(input[..i], input[i + 1..])
  {
    var i := FirstIndexOf(input, "--");
    if i < |input| then
      assert input[..i] + ["--"] + input[i + 1..] == input;
      ArgSplit(input[..i], input[i + 1..])
    else
      ArgSplit(input, [])
  }

  /* ---------------------------------------------------------------------
   * strings.TrimSpace
   * ------------------------------------------------------------------- */

  /** Go's unicode.IsSpace: the ASCII white space and the Unicode Z-category spaces. */
  predicate IsSpace(c: char)
  {
    c == ' ' || '\t' <= c <= '\r' || c == '\U{85}' || c == '\U{A0}' || c == '\U{1680}'
    || '\U{2000}' <= c <= '\U{200A}' || c == '\U{2028}' || c == '\U{2029}'
    || c == '\U{202F}' || c == '\U{205F}' || c == '\U{3000}'
  }

  /** The number of leading white-space runes of `s`. */
  function LeadingSpaces(s: string): (k: nat)
    ensures k <= |s|
    ensures forall j :: 0 <= j < k ==> IsSpace(s[j])
    ensures k < |s| ==> !IsSpace(s[k])
  {
    if s != [] && IsSpace(s[0]) then 1 + LeadingSpaces(s[1..]) else 0
  }

  /** The length of `s` without its trailing white space. */
  function TrimmedEnd(s: string): (m: nat)
    ensures m <= |s|
    ensures forall j :: m <= j < |s| ==> IsSpace(s[j])
    ensures m > 0 ==> !IsSpace(s[m - 1])
  {
    if s != [] && IsSpace(s[|s| - 1]) then TrimmedEnd(s[..|s| - 1]) else |s|
  }

  predicate AllSpace(s: string)
  {
    forall j :: 0 <= j < |s| ==> IsSpace(s[j])
  }

  /**
   * strings.TrimSpace: `s` is white space, then the result, then white
   * space, and the result neither starts nor ends with white space.
   */
  function TrimSpace(s: string): (r: string)
    ensures r == [] || (!IsSpace(r[0]) && !IsSpace(r[|r| - 1]))
    ensures LeadingSpaces(s) + |r| <= |s|
    ensures s == s[..LeadingSpaces(s)] + r + s[LeadingSpaces(s) + |r|..]
    ensures AllSpace(s[..LeadingSpaces(s)]) && AllSpace(s[LeadingSpaces(s) + |r|..])
  {
    var k := LeadingSpaces(s);
    var m := TrimmedEnd(s[k..]);
    assert s == s[..k] + s[k..][..m] + s[k + m..];
    s[k..][..m]
  }

  /* ---------------------------------------------------------------------
   * splitArguments
   * ------------------------------------------------------------------- */

  /** The two errors splitArguments reports. */
  datatype SplitError =
    | MissingQuote(quote: char)   // "missing `<quote>`"
    | UnfinishedEscape            // "unfinished escape"

  datatype Result<T> = Ok(value: T) | Err(error: SplitError)

  /**
   * The state of the tokeniser after some prefix of the input: the words
   * produced so far, the word being built, whether the previous rune was an
   * unconsumed backslash, and the current delimiter (' ' outside quotes,
   * the opening quote inside them).
   */
  datatype State = State(result: seq<string>, word: string, escaped: bool, delim: char)

  const Start := State([], "", false, ' ')

  /** A state outside any quote with no escape pending. */
  predicate Unquoted(st: State)
  {
    st.delim == ' ' && !st.escaped
  }

  /** One iteration of the loop over the runes. */
  function Step(st: State, c: char): State
  {
    if st.escaped then
      st.(word := st.word + [c], escaped := false)
    else if c == '\\' then
      st.(escaped := true)
    else if c == st.delim then
      // Only words that are not delimited by spaces may be empty.
      st.(result := if st.word != "" || st.delim != ' ' then st.result + [st.word] else st.result,
          word := "", delim := ' ')
    else if (c == '"' || c == '\'' || c == ' ') && st.delim == ' ' then
      st.(delim := c)
    else
      st.(word := st.word + [c])
  }

  /** The state reached from `st` after the runes of `s`, in order. */
  function RunFrom(st: State, s: string): State
  {
    if s == [] then st else Step(RunFrom(st, s[..|s| - 1]), s[|s| - 1])
  }

  /** What the code after the loop makes of the final state. */
  function Finish(st: State): Result<seq<string>>
  {
    if st.delim != ' ' then Err(MissingQuote(st.delim))
    else if st.escaped then Err(UnfinishedEscape)
    else if |st.word| > 0 then Ok(st.result + [st.word])
    else Ok(st.result)
  }

  /** The words of `s`, read without trimming. */
  function Tokenize(s: string): Result<seq<string>>
  {
    Finish(RunFrom(Start, s))
  }

  /** The result of splitArguments: the words of the trimmed input. */
  function Words(input: string): Result<seq<string>>
  {
    Tokenize(TrimSpace(input))
  }

  /**
   * splitArguments: the loop over the runes of the trimmed input with its
   * four variables, and the checks after it.
   */
  method SplitArguments(input: string) returns (r: Result<seq<string>>)
    ensures r == Words(input)
  {
    var s := TrimSpace(input);
    var result: seq<string> := [];
    var word: string := "";
    var escaped := false;
    var delim := ' ';
    var i := 0;
    while i < |s|
      invariant 0 <= i <= |s|
      invariant State(result, word, escaped, delim) == RunFrom(Start, s[..i])
    {
      var c := s[i];
      assert s[..i + 1][..i] == s[..i];
      if escaped {
        word := word + [c];
        escaped := false;
      } else if c == '\\' {
        escaped := true;
      } else if c == delim {
        if word != "" || delim != ' ' {
          result := result + [word];
        }
        word := "";
        delim := ' ';
      } else if (c == '"' || c == '\'' || c == ' ') && delim == ' ' {
        delim := c;
      } else {
        word := word + [c];
      }
      i := i + 1;
    }
    assert s[..|s|] == s;
    if delim != ' ' {
      return Err(MissingQuote(delim));
    }
    if escaped {
      return Err(UnfinishedEscape);
    }
    if |word| > 0 {
      result := result + [word];
    }
    return Ok(result);
  }

  /* Properties of the tokeniser. */

  /** Running over a concatenation is running over each part in turn. */
  lemma {:induction false} RunFromAppend(st: State, s: string, t: string)
    ensures RunFrom(st, s + t) == RunFrom(RunFrom(st, s), t)
  {
    if t == [] {
      assert s + t == s;
    } else {
      assert (s + t)[..|s + t| - 1] == s + t[..|t| - 1];
      RunFromAppend(st, s, t[..|t| - 1]);
    }
  }

  /**
   * A backslash outside an escape makes the next rune, whatever it is,
   * a literal character of the current word; the backslash itself is
   * dropped and nothing else changes.
   */
  lemma EscapeIsLiteral(st: State, c: char)
    requires !st.escaped
    ensures RunFrom(st, ['\\', c]) == st.(word := st.word + [c])
  {
    assert ['\\', c][..1] == ['\\'];
    assert ['\\'][..0] == [];
    assert RunFrom(st, ['\\']) == st.(escaped := true);
  }

  /**
   * A run that stays inside the quote `q`: every backslash escapes the rune
   * after it, and `q` itself appears only escaped.
   */
  predicate QuoteBody(q: char, t: string)
    decreases |t|
  {
    || t == []
    || (t[0] == '\\' && |t| >= 2 && QuoteBody(q, t[2..]))
    || (t[0] != '\\' && t[0] != q && QuoteBody(q, t[1..]))
  }

  /** The text a quote body stands for: each escaping backslash dropped, the rune after it kept. */
  function Unescape(t: string): string
    decreases |t|
  {
    if t == [] then ""
    else if t[0] == '\\' && |t| >= 2 then [t[1]] + Unescape(t[2..])
    else [t[0]] + Unescape(t[1..])
  }

  /** Without backslashes, a quote body is a run without the quote, and it stands for itself. */
  lemma {:induction false} PlainQuoteBody(q: char, t: string)
    requires '\\' !in t
    ensures QuoteBody(q, t) <==> q !in t
    ensures Unescape(t) == t
    decreases |t|
  {
    if t != [] {
      assert '\\' !in t[1..] by {
        forall j | 0 <= j < |t[1..]| ensures t[1..][j] == t[j + 1] { }
      }
      PlainQuoteBody(q, t[1..]);
      assert q in t <==> t[0] == q || q in t[1..] by {
        assert t == [t[0]] + t[1..];
      }
      assert [t[0]] + t[1..] == t;
    }
  }

  /**
   * Inside a quote, a quote body is appended to the word as the text it
   * stands for: spaces and the other quote are literal, escapes are resolved.
   */
  lemma {:induction false} InsideQuote(st: State, t: string)
    requires !st.escaped && st.delim != ' '
    requires QuoteBody(st.delim, t)
    ensures RunFrom(st, t) == st.(word := st.word + Unescape(t))
    decreases |t|
  {
    if t == [] {
      assert st.word + Unescape(t) == st.word;
    } else if t[0] == '\\' {
      assert |t| >= 2 && QuoteBody(st.delim, t[2..]) && Unescape(t) == [t[1]] + Unescape(t[2..]);
      EscapeIsLiteral(st, t[1]);
      assert t == ['\\', t[1]] + t[2..];
      RunFromAppend(st, ['\\', t[1]], t[2..]);
      InsideQuote(st.(word := st.word + [t[1]]), t[2..]);
      assert st.word + [t[1]] + Unescape(t[2..]) == st.word + Unescape(t);
    } else {
      assert t[0] != st.delim && QuoteBody(st.delim, t[1..]) && Unescape(t) == [t[0]] + Unescape(t[1..]);
      assert RunFrom(st, [t[0]]) == st.(word := st.word + [t[0]]) by {
        assert [t[0]][..0] == [];
      }
      assert t == [t[0]] + t[1..];
      RunFromAppend(st, [t[0]], t[1..]);
      InsideQuote(st.(word := st.word + [t[0]]), t[1..]);
      assert st.word + [t[0]] + Unescape(t[1..]) == st.word + Unescape(t);
    }
  }

  /**
   * A quoted run: the quote opens without breaking the pending word, the
   * body is literal apart from its escapes, and the matching quote ends the
   * word, which is emitted even when it is empty ("" and '').
   */
  lemma QuotedWord(st: State, q: char, t: string)
    requires Unquoted(st) && (q == '"' || q == '\'')
    requires QuoteBody(q, t)
    ensures RunFrom(st, [q] + t + [q]) == st.(result := st.result + [st.word + Unescape(t)], word := "")
  {
    var inQuote := st.(delim := q);
    assert RunFrom(st, [q]) == inQuote by {
      assert [q][..0] == [];
    }
    InsideQuote(inQuote, t);
    RunFromAppend(st, [q], t);
    RunFromAppend(st, [q] + t, [q]);
    assert [q][..0] == [];
  }

  /**
   * A quote still open at the end of the input is an error and no words are
   * returned, also when a backslash after the body is left unfinished: the
   * quote is checked first.
   */
  lemma UnclosedQuote(p: string, q: char, t: string, tail: string)
    requires Unquoted(RunFrom(Start, p)) && (q == '"' || q == '\'')
    requires QuoteBody(q, t) && (tail == [] || tail == ['\\'])
    ensures Tokenize(p + [q] + t + tail) == Err(MissingQuote(q))
  {
    var st := RunFrom(Start, p);
    RunFromAppend(Start, p, [q]);
    assert [q][..0] == [];
    InsideQuote(st.(delim := q), t);
    RunFromAppend(Start, p + [q], t);
    RunFromAppend(Start, p + [q] + t, tail);
    if tail != [] {
      assert tail[..0] == [];
    } else {
      assert p + [q] + t + tail == p + [q] + t;
    }
  }

  /** A backslash at the very end, outside any quote, is the "unfinished escape" error. */
  lemma TrailingBackslash(p: string)
    requires Unquoted(RunFrom(Start, p))
    ensures Tokenize(p + ['\\']) == Err(UnfinishedEscape)
  {
    assert (p + ['\\'])[..|p|] == p;
  }

  /** The state invariant of input without quote characters: never inside a quote, no empty word emitted. */
  lemma {:induction false} NoQuotesState(s: string)
    requires '"' !in s && '\'' !in s
    ensures RunFrom(Start, s).delim == ' '
    ensures forall w :: w in RunFrom(Start, s).result ==> w != ""
  {
    if s != [] {
      var s' := s[..|s| - 1];
      assert '"' !in s' && '\'' !in s' by {
        forall j | 0 <= j < |s'| ensures s'[j] == s[j] { }
      }
      NoQuotesState(s');
    }
  }

  /**
   * Without quote characters, runs of spaces never produce an empty word:
   * every word returned is non-empty.
   */
  lemma NoEmptyUnquotedWords(s: string)
    requires '"' !in s && '\'' !in s
    ensures Tokenize(s).Ok? ==> forall w :: w in Tokenize(s).value ==> w != ""
  {
    NoQuotesState(s);
  }

  /** `n` spaces. */
  function Spaces(n: nat): (r: string)
    ensures |r| == n && forall i | 0 <= i < n :: r[i] == ' '
  {
    seq(n, i => ' ')
  }

  /**
   * Outside quotes, a run of spaces ends the pending word, if there is
   * one, and never emits an empty word, wherever quotes occur in the rest
   * of the input.
   */
  lemma {:induction false} SpaceRun(st: State, n: nat)
    requires Unquoted(st) && n >= 1
    ensures RunFrom(st, Spaces(n)) ==
      if st.word == "" then st else st.(result := st.result + [st.word], word := "")
  {
    if n == 1 {
      assert Spaces(1)[..0] == [];
    } else {
      assert Spaces(n)[..n - 1] == Spaces(n - 1);
      SpaceRun(st, n - 1);
    }
  }

  /* An independent reference for plain input: split at every space, drop the empty pieces. */

  /** The pieces of `s` between its spaces (k spaces give k + 1 pieces). */
  function Pieces(s: string): (r: seq<string>)
    ensures |r| > 0
  {
    if ' ' !in s then [s]
    else
      var k := LastSpace(s);
      Pieces(s[..k]) + [s[k + 1..]]
  }

  /** The index of the last space of `s`. */
  function LastSpace(s: string): (k: nat)
    requires ' ' in s
    ensures k < |s| && s[k] == ' ' && ' ' !in s[k + 1..]
  {
    if s[|s| - 1] == ' ' then |s| - 1
    else
      assert ' ' in s[..|s| - 1] by {
        var j :| 0 <= j < |s| && s[j] == ' ';
        assert s[..|s| - 1][j] == ' ';
      }
      var k := LastSpace(s[..|s| - 1]);
      assert s[k + 1..] == s[..|s| - 1][k + 1..] + [s[|s| - 1]];
      k
  }

  /** The non-empty elements of `ws`, in order. */
  function NonEmpty(ws: seq<string>): (r: seq<string>)
    ensures forall w :: w in r ==> w != "" && w in ws
  {
    if ws == [] then []
    else NonEmpty(ws[..|ws| - 1]) + (if ws[|ws| - 1] == "" then [] else [ws[|ws| - 1]])
  }

  /** The space-separated words of `s`, as strings.Fields splits at ' ' alone. */
  function Fields(s: string): seq<string>
  {
    NonEmpty(Pieces(s))
  }

  /** Plain input: no quotes and no backslashes. */
  predicate Plain(s: string)
  {
    '"' !in s && '\'' !in s && '\\' !in s
  }

  lemma PlainPrefix(s: string)
    requires Plain(s) && s != []
    ensures Plain(s[..|s| - 1])
  {
    forall j | 0 <= j < |s| - 1 ensures s[..|s| - 1][j] == s[j] { }
  }

  /** Appending a non-space rune extends the last piece. */
  lemma {:induction false} PiecesExtend(s: string, c: char)
    requires c != ' '
    ensures Pieces(s + [c]) == Pieces(s)[..|Pieces(s)| - 1] + [Pieces(s)[|Pieces(s)| - 1] + [c]]
  {
    if ' ' in s {
      var k := LastSpace(s);
      assert ' ' in s + [c] by { assert (s + [c])[k] == ' '; }
      var k' := LastSpace(s + [c]);
      assert k' == k by {
        assert (s + [c])[k'] == ' ';
      }
      assert (s + [c])[..k] == s[..k];
      assert (s + [c])[k + 1..] == s[k + 1..] + [c];
    } else {
      assert ' ' !in s + [c];
    }
  }

  /** Appending a space starts a new, empty piece. */
  lemma PiecesSpace(s: string)
    ensures Pieces(s + [' ']) == Pieces(s) + [""]
  {
    assert (s + [' '])[|s|] == ' ';
    var k := LastSpace(s + [' ']);
    assert (s + [' '])[..k] == s;
  }

  /** For plain input the state is: the non-empty finished pieces, and the last piece under construction. */
  lemma {:induction false} PlainState(s: string)
    requires Plain(s)
    ensures var P := Pieces(s);
      RunFrom(Start, s) == State(NonEmpty(P[..|P| - 1]), P[|P| - 1], false, ' ')
  {
    if s == [] {
      assert Pieces(s) == [""];
    } else {
      var s', c := s[..|s| - 1], s[|s| - 1];
      assert s == s' + [c];
      PlainPrefix(s);
      PlainState(s');
      var P := Pieces(s');
      if c == ' ' {
        PiecesSpace(s');
        var Q := P + [""];
        assert Q[..|Q| - 1] == P;
        assert P == P[..|P| - 1] + [P[|P| - 1]];
      } else {
        PiecesExtend(s', c);
        var Q := P[..|P| - 1] + [P[|P| - 1] + [c]];
        assert Q[..|Q| - 1] == P[..|P| - 1];
      }
    }
  }

  /** On plain input the tokeniser is exactly "split at spaces, drop empty words". */
  lemma PlainIsFields(s: string)
    requires Plain(s)
    ensures Tokenize(s) == Ok(Fields(s))
  {
    PlainState(s);
    var P := Pieces(s);
    assert P == P[..|P| - 1] + [P[|P| - 1]];
    var st := RunFrom(Start, s);
    assert st.result == NonEmpty(P[..|P| - 1]) && st.word == P[|P| - 1] && Unquoted(st);
    assert NonEmpty(P) == NonEmpty(P[..|P| - 1]) + (if P[|P| - 1] == "" then [] else [P[|P| - 1]]);
    assert Tokenize(s) == Finish(st);
    assert Fields(s) == NonEmpty(P);
    if P[|P| - 1] == "" {
      assert Finish(st) == Ok(NonEmpty(P[..|P| - 1]));
      assert NonEmpty(P[..|P| - 1]) + [] == NonEmpty(P[..|P| - 1]);
    } else {
      assert Finish(st) == Ok(NonEmpty(P[..|P| - 1]) + [P[|P| - 1]]);
    }
  }

  /* ---------------------------------------------------------------------
   * toUpperFirst
   * ------------------------------------------------------------------- */

  /** The rune utf8.DecodeRuneInString reports for an empty string. */
  const RuneError: char := '\U{FFFD}'

  predicate IsLower(c: char)
  {
    'a' <= c <= 'z'
  }

  /** unicode.ToUpper, restricted to the ASCII letters. */
  function ToUpper(c: char): (u: char)
    ensures !IsLower(u)
    ensures IsLower(c) ==> u as int == c as int - 32
    ensures !IsLower(c) ==> u == c
  {
    if IsLower(c) then (c as int - 32) as char else c
  }

  /**
   * toUpperFirst: the first rune upper-cased, everything after it kept.
   * An empty string decodes as RuneError with width 0, so it yields that rune.
   */
  function ToUpperFirst(s: string): (r: string)
    ensures s == [] ==> r == [RuneError]
    ensures s != [] ==> |r| == |s| && r[1..] == s[1..] && !IsLower(r[0])
    ensures s != [] ==> (r[0] == s[0] || (IsLower(s[0]) && r[0] as int == s[0] as int - 32))
  {
    if s == [] then [ToUpper(RuneError)] else [ToUpper(s[0])] + s[1..]
  }
}
