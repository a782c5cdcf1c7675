/** The symbol codec: one character per cell value ('1'..'9', then 'A'.. for 10..35,
    blank as ' ', '0' or '.'), the set of symbols accepted for a board size, the
    token form of a value, and the two-mode row parser used for manual entry.
    Characters are modelled on their ASCII behaviour. */
module Codec {
  import opened Optional

  predicate IsDigit(c: char) { '0' <= c <= '9' }
  predicate IsUpper(c: char) { 'A' <= c <= 'Z' }
  predicate IsLower(c: char) { 'a' <= c <= 'z' }
  predicate IsAlpha(c: char) { IsUpper(c) || IsLower(c) }
  predicate IsAlnum(c: char) { IsDigit(c) || IsAlpha(c) }

  /** `str.isspace` on ASCII: tab, newline, vertical tab, form feed, carriage
      return, the four information separators, and space. */
  predicate IsSpace(c: char)
  {
    var x := c as int;
    x == 32 || 9 <= x <= 13 || 28 <= x <= 31
  }

  /** `str.upper` on one ASCII character. */
  function Upper(c: char): (u: char)
    ensures IsLower(c) ==> IsUpper(u) && u as int == c as int - 32
    ensures !IsLower(c) ==> u == c
  {
    if IsLower(c) then (c as int - 32) as char else c
  }

  function DigitChar(d: int): (c: char)
    requires 0 <= d <= 9
    ensures IsDigit(c) && c as int - '0' as int == d
  {
    ('0' as int + d) as char
  }

  function LetterChar(base: char, i: int): (c: char)
    requires base == 'A' || base == 'a'
    requires 0 <= i < 26
    ensures c as int - base as int == i
    ensures base == 'A' ==> IsUpper(c)
    ensures base == 'a' ==> IsLower(c)
  {
    (base as int + i) as char
  }

  /** `val_to_char`: blank is a space, 1..9 are digits, 10..35 are 'A'..'Z'. */
  function ValToChar(v: int): (c: char)
    requires 0 <= v <= 35
    ensures v == 0 <==> c == ' '
    ensures 1 <= v <= 9 <==> IsDigit(c) && c != '0'
    ensures 10 <= v <==> IsUpper(c)
  {
    if v == 0 then ' '
    else if v <= 9 then DigitChar(v)
    else LetterChar('A', v - 10)
  }

  /** `char_to_val`: ' ', '0' and '.' are blank, digits are themselves, letters
      of either case are 10..35, anything else has no value. */
  function CharToVal(c: char): (r: Option<int>)
    ensures r.Some? <==> c == ' ' || c == '.' || IsAlnum(c)
    ensures r.Some? ==> 0 <= r.value <= 35
    ensures r == Some(0) <==> c == ' ' || c == '0' || c == '.'
  {
    if c == ' ' || c == '0' || c == '.' then Some(0)
    else if IsDigit(c) then Some(c as int - '0' as int)
    else
      var u := Upper(c);
      if 'A' <= u <= 'Z' then Some(10 + (u as int - 'A' as int)) else None
  }

  /** Decoding undoes encoding for every value the codec supports. */
  lemma CharRoundTrip(v: int)
    requires 0 <= v <= 35
    ensures CharToVal(ValToChar(v)) == Some(v)
  {
  }

  /** Encoding undoes decoding up to the choice of blank and of letter case:
      a decoded symbol re-encodes to ' ' when blank and to its upper-case form
      otherwise. */
  lemma CharInverse(c: char)
    requires CharToVal(c).Some?
    ensures ValToChar(CharToVal(c).value) == if CharToVal(c).value == 0 then ' ' else Upper(c)
  {
    var v := CharToVal(c).value;
    if v != 0 {
      if IsDigit(c) {
        assert ValToChar(v) as int == c as int;
      } else {
        assert ValToChar(v) as int == Upper(c) as int;
      }
    }
  }

  /** Letters decode the same in either case. */
  lemma CaseInsensitive(c: char)
    requires IsLower(c)
    ensures CharToVal(c) == CharToVal(Upper(c))
    ensures 10 <= CharToVal(c).value <= 35
  {
  }

  function Min(a: int, b: int): int { if a <= b then a else b }

  /** `allowed_symbols`: '0' and '.', the digits up to min(size, 9), and for
      sizes above nine the first size - 9 letters in both cases. */
  function AllowedSymbols(size: nat): set<char>
    requires size <= 35
  {
    {'0', '.'}
    + (set i | 1 <= i <= Min(size, 9) :: DigitChar(i))
    + (if size > 9
       then (set i | 0 <= i < size - 9 :: LetterChar('A', i))
            + (set i | 0 <= i < size - 9 :: LetterChar('a', i))
       else {})
  }

  /** The accepted symbols are exactly the non-space characters that decode to
      a value in [0, size]. */
  lemma AllowedSymbolsExactly(size: nat, c: char)
    requires size <= 35
    ensures c in AllowedSymbols(size) <==>
              c != ' ' && CharToVal(c).Some? && CharToVal(c).value <= size
  {
    var syms := AllowedSymbols(size);
    if c != ' ' && CharToVal(c).Some? && CharToVal(c).value <= size {
      var v := CharToVal(c).value;
      if c == '0' || c == '.' {
      } else if IsDigit(c) {
        assert c == DigitChar(v);
      } else if IsUpper(c) {
        assert c == LetterChar('A', v - 10);
      } else {
        assert c == LetterChar('a', v - 10);
      }
    }
  }

  /** Leading whitespace count: everything before it is space, the character at it is not. */
  function LeadingSpaces(s: string): (n: nat)
    ensures n <= |s|
    ensures forall i :: 0 <= i < n ==> IsSpace(s[i])
    ensures n < |s| ==> !IsSpace(s[n])
  {
    if |s| > 0 && IsSpace(s[0]) then 1 + LeadingSpaces(s[1..]) else 0
  }

  /** Trailing whitespace count. */
  function TrailingSpaces(s: string): (n: nat)
    ensures n <= |s|
    ensures forall i :: |s| - n <= i < |s| ==> IsSpace(s[i])
    ensures n < |s| ==> !IsSpace(s[|s| - n - 1])
  {
    if |s| > 0 && IsSpace(s[|s| - 1]) then 1 + TrailingSpaces(s[..|s| - 1]) else 0
  }

  /** t sits in s at offset a with only whitespace before and after it. */
  predicate Padded(s: string, t: string, a: nat)
  {
    && a + |t| <= |s| && s[a..a + |t|] == t
    && (forall i :: 0 <= i < a ==> IsSpace(s[i]))
    && (forall i :: a + |t| <= i < |s| ==> IsSpace(s[i]))
  }

  /** `str.strip()`: s without its leading and trailing whitespace. The
      result sits in s with only whitespace around it, and it neither starts
      nor ends with whitespace, which leaves one candidate. */
  function Strip(s: string): (t: string)
    ensures |t| == 0 || (!IsSpace(t[0]) && !IsSpace(t[|t| - 1]))
    ensures Padded(s, t, LeadingSpaces(s))
    ensures (forall i :: 0 <= i < |s| ==> IsSpace(s[i])) ==> t == ""
  {
    var lead := LeadingSpaces(s);
    var rest := s[lead..];
    var t := rest[..|rest| - TrailingSpaces(rest)];
    assert s[lead..lead + |t|] == t;
    assert forall i :: lead + |t| <= i < |s| ==> s[i] == rest[i - lead];
    assert Padded(s, t, lead);
    t
  }

  /** Strip's contract has one solution: any slice of s with only whitespace
      around it and none at its own ends is the strip of s. */
  lemma StripUnique(s: string, t: string, a: nat)
    requires Padded(s, t, a) && (|t| == 0 || (!IsSpace(t[0]) && !IsSpace(t[|t| - 1])))
    ensures Strip(s) == t
  {
    var t', a' := Strip(s), LeadingSpaces(s);
    if |t| == 0 {
      assert forall i :: 0 <= i < |s| ==> IsSpace(s[i]);
    } else {
      assert s[a] == t[0] && s[a + |t| - 1] == t[|t| - 1];
      assert s[a'] == t'[0] && s[a' + |t'| - 1] == t'[|t'| - 1];
      assert a == a';
      assert a + |t| == a' + |t'|;
    }
  }

  /** A string with no whitespace at either end is its own strip. */
  lemma StripUnchanged(s: string)
    requires |s| > 0 && !IsSpace(s[0]) && !IsSpace(s[|s| - 1])
    ensures Strip(s) == s
  {
    assert LeadingSpaces(s) == 0;
    assert s[0..] == s;
    assert TrailingSpaces(s) == 0;
  }

  /** A string that starts with a non-space character keeps it after stripping. */
  lemma StripKeepsHead(s: string)
    requires |s| > 0 && !IsSpace(s[0])
    ensures |Strip(s)| > 0 && Strip(s)[0] == s[0]
  {
    var rest := s[LeadingSpaces(s)..];
    assert rest == s;
    assert TrailingSpaces(rest) < |rest|;
  }

  /** `str.isdigit` on ASCII. */
  predicate AllDigits(t: string)
  {
    |t| > 0 && forall i :: 0 <= i < |t| ==> IsDigit(t[i])
  }

  /** `int(t)` for a string of decimal digits. */
  function DecimalValue(t: string): nat
    requires forall i :: 0 <= i < |t| ==> IsDigit(t[i])
  {
    if |t| == 0 then 0
    else 10 * DecimalValue(t[..|t| - 1]) + DigitValue(t[|t| - 1])
  }

  function DigitValue(c: char): (d: nat)
    requires IsDigit(c)
    ensures d <= 9 && DigitChar(d) == c
  {
    c as int - '0' as int
  }

  /** `str(v)`: the decimal numeral of v. */
  function Decimal(v: nat): (t: string)
    ensures AllDigits(t)
    ensures |t| == 1 <==> v < 10
  {
    if v < 10 then [DigitChar(v)] else Decimal(v / 10) + [DigitChar(v % 10)]
  }

  /** Reading a numeral back gives the number: `int(str(v)) == v`. */
  lemma {:induction false} DecimalRoundTrip(v: nat)
    ensures DecimalValue(Decimal(v)) == v
  {
    if v >= 10 {
      DecimalRoundTrip(v / 10);
      var t := Decimal(v);
      assert t[..|t| - 1] == Decimal(v / 10);
    }
  }

  /** `token_to_val`: a stripped token that is empty or '.', a decimal numeral
      up to size, or a single letter whose value is at most size. */
  function TokenToVal(tok: string, size: nat): (r: Option<int>)
    ensures r.Some? ==> 0 <= r.value <= size
  {
    var t := Strip(tok);
    if t == "" || t == "." then Some(0)
    else if AllDigits(t) then
      var v := DecimalValue(t);
      if v <= size then Some(v) else None
    else if |t| == 1 && IsAlpha(t[0]) then
      match CharToVal(t[0])
      case Some(v) => if v <= size then Some(v) else None
      case None => None
    else None
  }

  /** A one-character token reads like the same character in a fixed-width row,
      except for whitespace other than space, which strips to the empty token. */
  lemma SymbolToken(c: char, size: nat)
    requires c == ' ' || !IsSpace(c)
    ensures TokenToVal([c], size) ==
              if CharToVal(c).Some? && CharToVal(c).value <= size then CharToVal(c) else None
  {
    if c != ' ' {
      var t := [c];
      StripUnchanged(t);
      if c == '.' {
      } else if IsDigit(c) {
        assert AllDigits(t);
        assert t[..0] == [];
        assert DecimalValue(t) == DigitValue(c);
      } else {
        assert !AllDigits(t);
        assert t != "" && t != ".";
      }
    }
  }

  /** Every numeral of a value up to size reads back as that value. */
  lemma NumeralToken(v: nat, size: nat)
    requires v <= size
    ensures TokenToVal(Decimal(v), size) == Some(v)
  {
    var t := Decimal(v);
    StripUnchanged(t);
    DecimalRoundTrip(v);
  }

  /** `[ch for ch in s if ch in syms]`. */
  function FilterChars(s: string, syms: set<char>): (r: string)
    ensures |r| <= |s|
    ensures forall i :: 0 <= i < |r| ==> r[i] in syms
  {
    if |s| == 0 then []
    else if s[0] in syms then [s[0]] + FilterChars(s[1..], syms)
    else FilterChars(s[1..], syms)
  }

  lemma {:induction false} FilterAllKept(s: string, syms: set<char>)
    requires forall i :: 0 <= i < |s| ==> s[i] in syms
    ensures FilterChars(s, syms) == s
  {
    if |s| > 0 {
      FilterAllKept(s[1..], syms);
    }
  }

  /** `re.split(r'[^A-Za-z0-9]+', s)` with the empty pieces dropped: the maximal
      runs of ASCII letters and digits, in order. `cur` is the run read so far. */
  function TokensFrom(s: string, cur: string): (r: seq<string>)
    requires forall i :: 0 <= i < |cur| ==> IsAlnum(cur[i])
    ensures forall j :: 0 <= j < |r| ==> |r[j]| > 0 && forall i :: 0 <= i < |r[j]| ==> IsAlnum(r[j][i])
  {
    if |s| == 0 then (if cur == "" then [] else [cur])
    else if IsAlnum(s[0]) then TokensFrom(s[1..], cur + [s[0]])
    else (if cur == "" then [] else [cur]) + TokensFrom(s[1..], "")
  }

  predicate IsWord(t: string)
  {
    |t| > 0 && forall i :: 0 <= i < |t| ==> IsAlnum(t[i])
  }

  /** The tokens of a whole line: every one is a non-empty run of letters and digits. */
  function Tokens(s: string): (r: seq<string>)
    ensures forall j :: 0 <= j < |r| ==> IsWord(r[j])
  {
    TokensFrom(s, "")
  }

  /** Words joined by one separator character. */
  function Join(words: seq<string>, sep: char): string
    requires |words| > 0
  {
    if |words| == 1 then words[0] else words[0] + [sep] + Join(words[1..], sep)
  }

  lemma {:induction false} TokensAbsorbWord(w: string, s: string, cur: string)
    requires forall i :: 0 <= i < |cur| ==> IsAlnum(cur[i])
    requires forall i :: 0 <= i < |w| ==> IsAlnum(w[i])
    ensures TokensFrom(w + s, cur) == TokensFrom(s, cur + w)
  {
    if |w| > 0 {
      assert (w + s)[1..] == w[1..] + s;
      assert cur + w == (cur + [w[0]]) + w[1..];
      TokensAbsorbWord(w[1..], s, cur + [w[0]]);
    } else {
      assert w + s == s;
      assert cur + w == cur;
    }
  }

  /** Splitting words joined by a non-alphanumeric separator gives the words back. */
  lemma {:induction false} TokensOfJoin(words: seq<string>, sep: char)
    requires |words| > 0 && !IsAlnum(sep)
    requires forall j :: 0 <= j < |words| ==> IsWord(words[j])
    ensures Tokens(Join(words, sep)) == words
  {
    var w := words[0];
    if |words| == 1 {
      TokensAbsorbWord(w, "", "");
      assert w + "" == w;
      assert "" + w == w;
    } else {
      var rest := Join(words[1..], sep);
      assert Join(words, sep) == w + ([sep] + rest);
      TokensAbsorbWord(w, [sep] + rest, "");
      assert "" + w == w;
      assert ([sep] + rest)[1..] == rest;
      TokensOfJoin(words[1..], sep);
      assert words == [w] + words[1..];
    }
  }

  /** Mode-one decoding of a fixed-width row: None as soon as a symbol has no
      value or one above size. */
  function DecodeSymbols(chars: string, size: nat): (r: Option<seq<int>>)
    ensures r.Some? ==> |r.value| == |chars| && forall i :: 0 <= i < |chars| ==> 0 <= r.value[i] <= size
  {
    if |chars| == 0 then Some([])
    else match CharToVal(chars[0])
      case None => None
      case Some(v) =>
        if v > size then None
        else match DecodeSymbols(chars[1..], size)
          case None => None
          case Some(rest) => Some([v] + rest)
  }

  /** Mode-two decoding of a token row: None as soon as a token has no value. */
  function DecodeTokens(tokens: seq<string>, size: nat): (r: Option<seq<int>>)
    ensures r.Some? ==> |r.value| == |tokens| && forall i :: 0 <= i < |tokens| ==> 0 <= r.value[i] <= size
  {
    if |tokens| == 0 then Some([])
    else match TokenToVal(tokens[0], size)
      case None => None
      case Some(v) =>
        match DecodeTokens(tokens[1..], size)
        case None => None
        case Some(rest) => Some([v] + rest)
  }

  /** `parse_row_input`: exactly size accepted symbols (space counts as blank)
      are read one per cell; otherwise the alphanumeric tokens are read, and
      there must be exactly size of them. */
  function ParseRowInput(s: string, size: nat): (r: Option<seq<int>>)
    requires size <= 35
    ensures r.Some? ==> |r.value| == size && forall i :: 0 <= i < size ==> 0 <= r.value[i] <= size
  {
    var chars := FilterChars(s, AllowedSymbols(size) + {' '});
    if |chars| == size then DecodeSymbols(chars, size)
    else
      var tokens := Tokens(s);
      if |tokens| != size then None else DecodeTokens(tokens, size)
  }

  /** The fixed-width branch never rejects: every symbol it keeps decodes to a
      value in [0, size], so its `return None` is unreachable. */
  lemma {:induction false} SymbolsAlwaysDecode(chars: string, size: nat)
    requires size <= 35
    requires forall i :: 0 <= i < |chars| ==> chars[i] in AllowedSymbols(size) + {' '}
    ensures DecodeSymbols(chars, size).Some? &&
            forall i :: 0 <= i < |chars| ==>
              CharToVal(chars[i]).Some? && DecodeSymbols(chars, size).value[i] == CharToVal(chars[i]).value
  {
    if |chars| > 0 {
      AllowedSymbolsExactly(size, chars[0]);
      SymbolsAlwaysDecode(chars[1..], size);
    }
  }

  /** One character per value, as the solver prints a row. */
  function RenderRow(row: seq<int>): (s: string)
    requires forall i :: 0 <= i < |row| ==> 0 <= row[i] <= 35
    ensures |s| == |row|
  {
    seq(|row|, i requires 0 <= i < |row| => ValToChar(row[i]))
  }

  /** A row printed one character per cell parses back to the same row. */
  lemma ParseRenderedRow(row: seq<int>, size: nat)
    requires size <= 35 && |row| == size
    requires forall i :: 0 <= i < size ==> 0 <= row[i] <= size
    ensures ParseRowInput(RenderRow(row), size) == Some(row)
  {
    var s := RenderRow(row);
    var syms := AllowedSymbols(size) + {' '};
    forall i | 0 <= i < |s| ensures s[i] in syms {
      CharRoundTrip(row[i]);
      AllowedSymbolsExactly(size, s[i]);
    }
    FilterAllKept(s, syms);
    assert |FilterChars(s, syms)| == size;
    SymbolsAlwaysDecode(s, size);
    var decoded := DecodeSymbols(s, size).value;
    forall i | 0 <= i < size ensures decoded[i] == row[i] {
      CharRoundTrip(row[i]);
    }
    assert decoded == row;
    assert ParseRowInput(s, size) == DecodeSymbols(s, size);
  }

  /** The decimal numerals of a row. */
  function Numerals(row: seq<int>): (words: seq<string>)
    requires forall i :: 0 <= i < |row| ==> 0 <= row[i]
    ensures |words| == |row|
    ensures forall j :: 0 <= j < |words| ==> words[j] == Decimal(row[j])
  {
    seq(|row|, i requires 0 <= i < |row| => Decimal(row[i]))
  }

  /** A token row decodes value by value. */
  lemma DecodeTokensCons(tokens: seq<string>, size: nat, v: int, rest: seq<int>)
    requires |tokens| > 0 && TokenToVal(tokens[0], size) == Some(v)
    requires DecodeTokens(tokens[1..], size) == Some(rest)
    ensures DecodeTokens(tokens, size) == Some([v] + rest)
  {
  }

  lemma {:induction false} DecodeNumerals(row: seq<int>, size: nat)
    requires forall i :: 0 <= i < |row| ==> 0 <= row[i] <= size
    ensures DecodeTokens(Numerals(row), size) == Some(row)
  {
    if |row| > 0 {
      var words := Numerals(row);
      NumeralToken(row[0], size);
      assert words[1..] == Numerals(row[1..]);
      DecodeNumerals(row[1..], size);
      DecodeTokensCons(words, size, row[0], row[1..]);
      assert row == [row[0]] + row[1..];
    }
  }

  /** Every digit of the numeral of a value up to size is an accepted symbol. */
  lemma NumeralSymbols(v: nat, size: nat)
    requires v <= size <= 35
    ensures forall i :: 0 <= i < |Decimal(v)| ==> Decimal(v)[i] in AllowedSymbols(size)
  {
    var t := Decimal(v);
    forall i | 0 <= i < |t| ensures t[i] in AllowedSymbols(size) {
      AllowedSymbolsExactly(size, t[i]);
      if v < 10 {
        assert t[i] == DigitChar(v);
      }
    }
  }

  lemma {:induction false} FilterConcat(a: string, b: string, syms: set<char>)
    ensures FilterChars(a + b, syms) == FilterChars(a, syms) + FilterChars(b, syms)
  {
    if |a| > 0 {
      assert (a + b)[1..] == a[1..] + b;
      FilterConcat(a[1..], b, syms);
    } else {
      assert a + b == b;
    }
  }

  /** Joining non-empty words of kept symbols with a kept separator keeps at least
      one symbol per word and one per separator. */
  lemma {:induction false} JoinFilterLength(words: seq<string>, sep: char, syms: set<char>)
    requires |words| > 0 && sep in syms
    requires forall j :: 0 <= j < |words| ==> |words[j]| > 0 && forall i :: 0 <= i < |words[j]| ==> words[j][i] in syms
    ensures |FilterChars(Join(words, sep), syms)| >= 2 * |words| - 1
  {
    FilterAllKept(words[0], syms);
    if |words| > 1 {
      var rest := Join(words[1..], sep);
      JoinFilterLength(words[1..], sep, syms);
      assert Join(words, sep) == words[0] + ([sep] + rest);
      FilterConcat(words[0], [sep] + rest, syms);
      FilterConcat([sep], rest, syms);
      FilterAllKept([sep], syms);
    }
  }

  /** A row typed as decimal numerals separated by spaces or dots (the token
      form the prompt suggests) parses back to the same row: the symbols it
      contains outnumber the cells, so the token reading applies. */
  lemma ParseNumeralRow(row: seq<int>, size: nat, sep: char)
    requires 2 <= size <= 35 && |row| == size
    requires forall i :: 0 <= i < size ==> 0 <= row[i] <= size
    requires sep == ' ' || sep == '.'
    ensures ParseRowInput(Join(Numerals(row), sep), size) == Some(row)
  {
    var words := Numerals(row);
    var syms := AllowedSymbols(size) + {' '};
    forall j | 0 <= j < |words|
      ensures IsWord(words[j])
      ensures |words[j]| > 0 && forall i :: 0 <= i < |words[j]| ==> words[j][i] in syms
    {
      NumeralSymbols(row[j], size);
    }
    AllowedSymbolsExactly(size, '.');
    JoinFilterLength(words, sep, syms);
    TokensOfJoin(words, sep);
    DecodeNumerals(row, size);
  }
}
