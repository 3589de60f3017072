/** The few Python string built-ins that the result-file parsers rely on,
    restricted to ASCII, and the two Python exceptions they can raise. */
module PyText {

  /** The exceptions the parsers raise: an index out of range
      (`lines[k]`, `line[0]`, `tokens[k]`, `values_list[0]`) and a failed
      conversion (`float(token)`, `np.max([])`). */
  datatype Exception = IndexError | ValueError

  datatype Option<T> = None | Some(value: T)

  datatype Result<T> = Ok(value: T) | Err(error: Exception)

  /** A computation that changes state and either completes or raises. */
  datatype Outcome = Pass | Fail(error: Exception)

  /** `c.isspace()` for an ASCII character: \t \n \v \f \r, the
      separators \x1c-\x1f, and the space. */
  predicate IsSpace(c: char)
  {
    c == ' ' || '\t' <= c <= '\r' || '\U{1c}' <= c <= '\U{1f}'
  }

  /** `c.isdigit()` for an ASCII character. */
  predicate IsDigit(c: char)
  {
    '0' <= c <= '9'
  }

  /** A word produced by `str.split()`: non-empty, without whitespace. */
  predicate IsToken(w: string)
  {
    |w| > 0 && forall k :: 0 <= k < |w| ==> !IsSpace(w[k])
  }

  /** Length of the run of non-whitespace that starts `s`. */
  function LeadingWord(s: string): (n: nat)
    ensures n <= |s|
    ensures forall k :: 0 <= k < n ==> !IsSpace(s[k])
    ensures n < |s| ==> IsSpace(s[n])
  {
    if s != [] && !IsSpace(s[0]) then 1 + LeadingWord(s[1..]) else 0
  }

  /** `s.split()` with no separator: the maximal runs of non-whitespace,
      in order; leading and trailing whitespace give no empty words. */
  function Split(s: string): (r: seq<string>)
    ensures forall k :: 0 <= k < |r| ==> IsToken(r[k])
    decreases |s|
  {
    if s == [] then []
    else if IsSpace(s[0]) then Split(s[1..])
    else
      var n := LeadingWord(s);
      [s[..n]] + Split(s[n..])
  }

  lemma {:induction false} LeadingWordOfToken(w: string, rest: string)
    requires IsToken(w)
    requires rest == [] || IsSpace(rest[0])
    ensures LeadingWord(w + rest) == |w|
    decreases |w|
  {
    if |w| > 1 {
      assert (w + rest)[1..] == w[1..] + rest;
      LeadingWordOfToken(w[1..], rest);
    } else {
      assert (w + rest)[1..] == rest;
    }
  }

  lemma SplitSkipsSpace(s: string)
    ensures Split(" " + s) == Split(s)
  {
    assert (" " + s)[1..] == s;
  }

  lemma {:induction false} SplitToken(w: string, rest: string)
    requires IsToken(w)
    requires rest == [] || IsSpace(rest[0])
    ensures Split(w + rest) == [w] + Split(rest)
  {
    var s := w + rest;
    LeadingWordOfToken(w, rest);
    assert s[..|w|] == w;
    assert s[|w|..] == rest;
  }

  /** Every character of `s` is whitespace; `s` may be empty. */
  predicate IsBlank(s: string)
  {
    forall k :: 0 <= k < |s| ==> IsSpace(s[k])
  }

  /** `ws[0] + gaps[0] + ws[1] + gaps[1] + ...`: each word followed by the
      whitespace after it. */
  function Interleave(ws: seq<string>, gaps: seq<string>): string
    requires |gaps| == |ws|
  {
    if ws == [] then "" else ws[0] + gaps[0] + Interleave(ws[1..], gaps[1..])
  }

  lemma {:induction false} SplitBlank(s: string, t: string)
    requires IsBlank(s)
    ensures Split(s + t) == Split(t)
    decreases |s|
  {
    if s != [] {
      assert (s + t)[0] == s[0] && IsSpace(s[0]);
      assert (s + t)[1..] == s[1..] + t;
      SplitBlank(s[1..], t);
    } else {
      assert s + t == t;
    }
  }

  /** `split()` of a line laid out as words and whitespace gives back the
      words in order: any whitespace before the first word, any non-empty
      run of whitespace between two words, any whitespace after the last
      (such as the "\n" that ends a line from `readlines()`). */
  lemma {:induction false} SplitWords(lead: string, ws: seq<string>, gaps: seq<string>)
    requires IsBlank(lead) && |gaps| == |ws|
    requires forall k :: 0 <= k < |ws| ==> IsToken(ws[k]) && IsBlank(gaps[k])
    requires forall k :: 0 <= k < |ws| - 1 ==> gaps[k] != []
    ensures Split(lead + Interleave(ws, gaps)) == ws
    decreases |ws|
  {
    SplitBlank(lead, Interleave(ws, gaps));
    if ws != [] {
      var tail := Interleave(ws[1..], gaps[1..]);
      var rest := gaps[0] + tail;
      assert Interleave(ws, gaps) == ws[0] + rest;
      if gaps[0] == [] {
        assert |ws| == 1 && tail == [];
        assert rest == [];
      } else {
        assert rest[0] == gaps[0][0];
      }
      SplitToken(ws[0], rest);
      SplitWords(gaps[0], ws[1..], gaps[1..]);
      assert [ws[0]] + ws[1..] == ws;
    }
  }

  /** Python's `pat in s` holds at position `i`. */
  predicate MatchesAt(s: string, pat: string, i: nat)
  {
    i + |pat| <= |s| && s[i..i + |pat|] == pat
  }

  /** Python's substring test `pat in s`. */
  function Contains(s: string, pat: string): (r: bool)
    ensures |s| < |pat| ==> !r
    ensures pat <= s ==> r
    decreases |s|
  {
    if |s| < |pat| then false
    else if s[..|pat|] == pat then true
    else Contains(s[1..], pat)
  }

  /** The substring test holds exactly when the pattern occurs at some position. */
  lemma {:induction false} ContainsIff(s: string, pat: string)
    ensures Contains(s, pat) <==> exists i: nat :: MatchesAt(s, pat, i)
    decreases |s|
  {
    if |s| < |pat| {
      forall i: nat ensures !MatchesAt(s, pat, i) { }
    } else if s[..|pat|] == pat {
      assert MatchesAt(s, pat, 0);
    } else {
      ContainsIff(s[1..], pat);
      if Contains(s[1..], pat) {
        var i: nat :| MatchesAt(s[1..], pat, i);
        assert s[1..][i..i + |pat|] == s[i + 1..i + 1 + |pat|];
        assert MatchesAt(s, pat, i + 1);
      } else {
        forall i: nat | MatchesAt(s, pat, i) ensures false {
          assert i != 0;
          assert s[1..][i - 1..i - 1 + |pat|] == s[i..i + |pat|];
          assert MatchesAt(s[1..], pat, i - 1);
        }
      }
    }
  }

  /** `s.split(sep)[0]`: the part of `s` before the first `sep`, or all of `s`. */
  function BeforeFirst(s: string, sep: char): (p: string)
    ensures p <= s
    ensures forall k :: 0 <= k < |p| ==> p[k] != sep
    ensures |p| < |s| ==> s[|p|] == sep
  {
    if s == [] || s[0] == sep then [] else [s[0]] + BeforeFirst(s[1..], sep)
  }

  /** `line[0].isdigit()`: raises IndexError on an empty line. */
  function FirstIsDigit(line: string): (r: Result<bool>)
  {
    if line == [] then Err(IndexError) else Ok(IsDigit(line[0]))
  }

  /** `float(token)`, with the conversion itself abstracted as `toFloat`;
      a token it rejects raises ValueError. */
  function ToFloat(token: string, toFloat: string -> Option<real>): (r: Result<real>)
    ensures r.Ok? <==> toFloat(token).Some?
    ensures r.Ok? ==> toFloat(token) == Some(r.value)
    ensures r.Err? ==> r.error == ValueError
  {
    match toFloat(token)
    case None => Err(ValueError)
    case Some(v) => Ok(v)
  }

  /** `float(row.split()[c])`. */
  function Field(row: string, c: nat, toFloat: string -> Option<real>): (r: Result<real>)
    ensures r == Err(IndexError) <==> c >= |Split(row)|
  {
    var tokens := Split(row);
    if c < |tokens| then ToFloat(tokens[c], toFloat) else Err(IndexError)
  }

  function DigitChar(d: nat): (c: char)
    requires d < 10
    ensures IsDigit(c)
  {
    (48 + d) as char
  }

  function DigitValue(c: char): nat
    requires IsDigit(c)
  {
    c as int - 48
  }

  /** `str(n)` for a non-negative integer. */
  function NatString(n: nat): (s: string)
    ensures |s| > 0 && forall k :: 0 <= k < |s| ==> IsDigit(s[k])
  {
    if n < 10 then [DigitChar(n)] else NatString(n / 10) + [DigitChar(n % 10)]
  }

  /** The value of a string of decimal digits, `int(s)`. */
  function NatValue(s: string): nat
    requires forall k :: 0 <= k < |s| ==> IsDigit(s[k])
  {
    if s == [] then 0 else 10 * NatValue(s[..|s| - 1]) + DigitValue(s[|s| - 1])
  }

  /** `int(str(n)) == n` for non-negative `n`. */
  lemma {:induction false} NatStringRoundTrip(n: nat)
    ensures NatValue(NatString(n)) == n
  {
    if n >= 10 {
      var s := NatString(n);
      assert s[..|s| - 1] == NatString(n / 10);
      NatStringRoundTrip(n / 10);
    }
  }

  /** `str(n)`, the text an f-string writes for an integer. */
  function DecimalString(n: int): (s: string)
    ensures n >= 0 ==> (forall k :: 0 <= k < |s| ==> IsDigit(s[k])) && NatValue(s) == n
    ensures n < 0 ==> (|s| > 1 && s[0] == '-' &&
      (forall k :: 1 <= k < |s| ==> IsDigit(s[k])) && NatValue(s[1..]) == -n)
  {
    if n < 0 then
      NatStringRoundTrip(-n);
      assert ("-" + NatString(-n))[1..] == NatString(-n);
      "-" + NatString(-n)
    else
      NatStringRoundTrip(n);
      NatString(n)
  }
}
