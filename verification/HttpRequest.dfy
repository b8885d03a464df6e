/** The request object of HttpRequest.cpp: request line, headers, reset. */
module HttpRequest {
  import opened Wrappers

  datatype Verb = Get | Post | Head | Unknown

  datatype HttpError = NoError | BadRequest | UriTooLong | HeaderTooLarge | PayloadTooLarge

  const MAX_LINE_PATH: nat := 8192

  /** `isspace` in the C locale. */
  predicate IsSpace(c: char) {
    c == ' ' || c == '\t' || c == '\n' || c == '\r' || c == '\U{0B}' || c == '\U{0C}'
  }

  /** `text` without its leading white space. */
  function SkipSpaces(text: string): (r: string)
    ensures r != [] ==> !IsSpace(r[0])
    ensures |r| <= |text|
  {
    if text != [] && IsSpace(text[0]) then SkipSpaces(text[1..]) else text
  }

  /** The longest prefix of `text` without white space. */
  function Word(text: string): (r: string)
    ensures r <= text
    ensures forall c | c in r :: !IsSpace(c)
  {
    if text == [] || IsSpace(text[0]) then [] else [text[0]] + Word(text[1..])
  }

  /** What `stream >> word` leaves in the stream. */
  function AfterWord(text: string): string {
    SkipSpaces(text)[|Word(SkipSpaces(text))|..]
  }

  /** What `stream >> word` leaves in `word`: nothing is extracted at the end of the stream. */
  function Extract(text: string, word: string): string {
    if SkipSpaces(text) == [] then word else Word(SkipSpaces(text))
  }

  function VerbOf(name: string): Verb {
    if name == "GET" then Get else if name == "POST" then Post else if name == "HEAD" then Head else Unknown
  }

  function LowerChar(c: char): char {
    if 'A' <= c <= 'Z' then c + 32 as char else c
  }

  function Lower(text: string): (r: string)
    ensures |r| == |text|
  {
    seq(|text|, i requires 0 <= i < |text| => LowerChar(text[i]))
  }

  /** A header value without the spaces and tabs in front of it. */
  function TrimLeft(value: string): string {
    if value != [] && (value[0] == ' ' || value[0] == '\t') then TrimLeft(value[1..]) else value
  }

  datatype Request = Request(
    verb: Verb,
    path: string,
    version: string,
    headers: map<string, string>,
    error: HttpError,
    savedFiles: seq<string>)
  {
    /** The request after the line has been read into it, whether or not it is accepted. */
    function ReadLine(line: string): Request {
      var rest := AfterWord(line);
      var r := this.(verb := VerbOf(Extract(line, "")),
                     path := Extract(rest, path),
                     version := Extract(AfterWord(rest), version));
      if |r.path| > MAX_LINE_PATH then r.(error := UriTooLong) else r
    }

    predicate LineAccepted() {
      |path| <= MAX_LINE_PATH && path != "" && version != ""
    }

    function AddHeader(key: string, value: string): Request {
      this.(headers := headers[Lower(key) := TrimLeft(value)])
    }

    predicate HasHeader(key: string) {
      Lower(key) in headers
    }

    function GetHeader(key: string): string {
      if Lower(key) in headers then headers[Lower(key)] else ""
    }

    /** `reset()`: everything but the list of saved files. */
    function Reset(): Request {
      Request(Unknown, "", "", map[], NoError, savedFiles)
    }
  }

  // ---------- names and values of headers ----------

  /** Equal, or the two cases of one letter: in ASCII a small letter stands 32 behind its capital. */
  predicate SameButCase(a: char, b: char) {
    || a == b
    || (65 <= a as int <= 90 && b as int == a as int + 32)
    || (65 <= b as int <= 90 && a as int == b as int + 32)
  }

  /** Header names that differ at most in case. */
  predicate SameName(a: string, b: string) {
    |a| == |b| && forall i | 0 <= i < |a| :: SameButCase(a[i], b[i])
  }

  /** Exactly the names that differ at most in case have the same lower-cased form, which has no capital. */
  lemma LowerIdentifies(a: string, b: string)
    ensures Lower(a) == Lower(b) <==> SameName(a, b)
    ensures SameName(Lower(a), a) && forall c | c in Lower(a) :: !(65 <= c as int <= 90)
  {
    forall i | 0 <= i < |a| && |a| == |b|
      ensures LowerChar(a[i]) == LowerChar(b[i]) <==> SameButCase(a[i], b[i])
    {
      LowerCharIdentifies(a[i], b[i]);
    }
    if Lower(a) == Lower(b) {
      forall i | 0 <= i < |a|
        ensures LowerChar(a[i]) == LowerChar(b[i])
      {
        assert Lower(a)[i] == Lower(b)[i];
      }
    }
  }

  lemma LowerCharIdentifies(a: char, b: char)
    ensures LowerChar(a) == LowerChar(b) <==> SameButCase(a, b)
  {
  }

  /** `rest` is `value` without the blanks and tabs in front of it. */
  predicate IsTrimmed(value: string, rest: string) {
    && |rest| <= |value| && value[|value| - |rest|..] == rest
    && (forall i | 0 <= i < |value| - |rest| :: value[i] == ' ' || value[i] == '\t')
    && (rest != "" ==> rest[0] != ' ' && rest[0] != '\t')
  }

  lemma {:induction false} TrimLeftTrims(value: string)
    ensures IsTrimmed(value, TrimLeft(value))
  {
    if value != [] && (value[0] == ' ' || value[0] == '\t') {
      TrimLeftTrims(value[1..]);
      var rest := TrimLeft(value[1..]);
      assert value[|value| - |rest|..] == value[1..][|value[1..]| - |rest|..];
      forall i | 0 <= i < |value| - |rest|
        ensures value[i] == ' ' || value[i] == '\t'
      {
        if i > 0 {
          assert value[i] == value[1..][i - 1];
        }
      }
    }
  }

  /** A header that has been added is found under its name in any case, without the blanks in front of its
      value, and no other one changes. */
  lemma AddedHeaderIsFound(r: Request, key: string, value: string, name: string)
    ensures var q := r.AddHeader(key, value);
            && (SameName(name, key) ==> q.HasHeader(name) && IsTrimmed(value, q.GetHeader(name)))
            && (!SameName(name, key) ==>
                  q.GetHeader(name) == r.GetHeader(name) && (q.HasHeader(name) <==> r.HasHeader(name)))
  {
    hide Lower, TrimLeft, SameName;
    LowerIdentifies(name, key);
    TrimLeftTrims(value);
  }

  /** Look-up ignores the case of the name, and nothing else. */
  lemma CaseIsIgnored(r: Request, a: string, b: string)
    ensures SameName(a, b) ==> r.GetHeader(a) == r.GetHeader(b) && (r.HasHeader(a) <==> r.HasHeader(b))
    ensures EMPTY_REQUEST.AddHeader(a, "").HasHeader(b) <==> SameName(a, b)
  {
    hide Lower, SameName;
    LowerIdentifies(a, b);
  }

  const EMPTY_REQUEST: Request := Request(Unknown, "", "", map[], NoError, [])

  // ---------- Content-Length ----------

  const ULONG_LIMIT: nat := 0x1_0000_0000_0000_0000

  predicate IsDigit(c: char) {
    '0' <= c <= '9'
  }

  /** The digits at the front of `text`. */
  function Digits(text: string): (r: string)
    ensures r <= text
    ensures forall c | c in r :: IsDigit(c)
  {
    if text == [] || !IsDigit(text[0]) then [] else [text[0]] + Digits(text[1..])
  }

  function Value(digits: string): nat
    requires forall c | c in digits :: IsDigit(c)
  {
    if digits == [] then 0
    else
      var last := digits[|digits| - 1];
      assert last in digits && IsDigit(last);
      Value(digits[..|digits| - 1]) * 10 + (last as int - '0' as int)
  }

  /** `std::stoul(text)`: white space, an optional sign, digits; None is an exception. A minus sign
      negates modulo 2^64. */
  function Stoul(text: string): (r: Option<nat>)
    ensures r.Some? ==> r.value < ULONG_LIMIT
  {
    var t := SkipSpaces(text);
    var negative := t != [] && t[0] == '-';
    var signed := t != [] && (t[0] == '-' || t[0] == '+');
    var digits := Digits(if signed then t[1..] else t);
    if digits == [] || Value(digits) >= ULONG_LIMIT then None
    else if negative && Value(digits) > 0 then Some(ULONG_LIMIT - Value(digits))
    else Some(Value(digits))
  }

  function Decimal(n: nat): (r: string)
    ensures r != [] && forall c | c in r :: IsDigit(c)
  {
    if n < 10 then [('0' as int + n) as char] else Decimal(n / 10) + [('0' as int + n % 10) as char]
  }

  lemma {:induction false} ValueOfDecimal(n: nat)
    ensures Value(Decimal(n)) == n
  {
    if n < 10 {
      assert Decimal(n)[..0] == [];
    } else {
      ValueOfDecimal(n / 10);
      assert Decimal(n)[..|Decimal(n)| - 1] == Decimal(n / 10);
    }
  }

  lemma {:induction false} DigitsOfDigits(text: string)
    requires forall c | c in text :: IsDigit(c)
    ensures Digits(text) == text
  {
    if text != [] {
      DigitsOfDigits(text[1..]);
    }
  }

  /** `stoul` reads back every length that fits in 64 bits. */
  lemma StoulOfDecimal(n: nat)
    requires n < ULONG_LIMIT
    ensures Stoul(Decimal(n)) == Some(n)
  {
    var text := Decimal(n);
    assert IsDigit(text[0]);
    DigitsOfDigits(text);
    ValueOfDecimal(n);
  }

  predicate Zeros(text: string) {
    forall c | c in text :: c == '0'
  }

  lemma {:induction false} ValueOfZeros(zeros: string, n: nat)
    requires Zeros(zeros)
    ensures (forall c | c in zeros + Decimal(n) :: IsDigit(c)) && Value(zeros + Decimal(n)) == n
    decreases n
  {
    var text := zeros + Decimal(n);
    assert '0' <= '0' <= '9';
    if n < 10 {
      assert text[..|text| - 1] == zeros;
      ValueOfNothing(zeros);
    } else {
      assert text[..|text| - 1] == zeros + Decimal(n / 10);
      ValueOfZeros(zeros, n / 10);
    }
  }

  lemma {:induction false} ValueOfNothing(zeros: string)
    requires Zeros(zeros)
    ensures (forall c | c in zeros :: IsDigit(c)) && Value(zeros) == 0
  {
    if zeros != "" {
      var n := |zeros| - 1;
      assert zeros[n] in zeros && forall c | c in zeros[..n] :: c in zeros;
      ValueOfNothing(zeros[..n]);
    }
  }

  lemma {:induction false} DigitsEnd(digits: string, rest: string)
    requires (forall c | c in digits :: IsDigit(c)) && (rest == "" || !IsDigit(rest[0]))
    ensures Digits(digits + rest) == digits
  {
    if digits == "" {
      assert digits + rest == rest;
    } else {
      assert (digits + rest)[1..] == digits[1..] + rest;
      DigitsEnd(digits[1..], rest);
    }
  }

  /** `stoul` reads any number behind white space, an optional sign and zeros, up to the first character that
      is no digit; a minus sign is taken modulo 2^64, and a number of 2^64 or more is an exception. */
  lemma StoulReads(pad: string, sign: string, zeros: string, n: nat, rest: string)
    requires (forall c | c in pad :: Blank(c)) && sign in ["", "+", "-"] && Zeros(zeros)
    requires rest == "" || !('0' <= rest[0] <= '9')
    ensures Stoul(pad + (sign + (zeros + Decimal(n) + rest)))
         == if n >= ULONG_LIMIT then None
            else if sign == "-" && n > 0 then Some(ULONG_LIMIT - n)
            else Some(n)
  {
    hide Decimal, Digits, Value, SkipSpaces;
    var digits := zeros + Decimal(n);
    var number := sign + (digits + rest);
    ValueOfZeros(zeros, n);
    DigitsEnd(digits, rest);
    assert digits[0] in digits && IsDigit(digits[0]);
    assert number[0] == if sign == "" then digits[0] else sign[0];
    SpacesAreSkipped(pad, number);
    if sign != "" {
      assert number[1..] == digits + rest;
    } else {
      assert number == digits + rest;
    }
  }

  /** Without a digit behind the white space and the sign there is no number. */
  lemma StoulFails(pad: string, sign: string, rest: string)
    requires (forall c | c in pad :: Blank(c)) && sign in ["", "+", "-"]
    requires rest == "" || !('0' <= rest[0] <= '9')
    requires sign == "" ==> rest == "" || (!Blank(rest[0]) && rest[0] != '+' && rest[0] != '-')
    ensures Stoul(pad + (sign + rest)) == None
  {
    hide SkipSpaces;
    var text := sign + rest;
    SpacesAreSkipped(pad, text);
    if sign != "" {
      assert text[1..] == rest;
    } else {
      assert text == rest;
    }
  }

  // ---------- request lines ----------

  /** White space in the C locale, by character code: blank, tab, line feed, vertical tab, form feed, return. */
  predicate Blank(c: char) {
    c as int == 32 || 9 <= c as int <= 13
  }

  lemma BlankIsSpace(c: char)
    ensures Blank(c) <==> IsSpace(c)
  {
  }

  lemma {:induction false} SpacesAreSkipped(pad: string, rest: string)
    requires (forall c | c in pad :: Blank(c)) && (rest == "" || !Blank(rest[0]))
    ensures SkipSpaces(pad + rest) == rest
  {
    if pad == "" {
      assert pad + rest == rest;
      if rest != "" {
        BlankIsSpace(rest[0]);
      }
    } else {
      BlankIsSpace(pad[0]);
      assert (pad + rest)[1..] == pad[1..] + rest;
      SpacesAreSkipped(pad[1..], rest);
    }
  }

  /** `words` with the white space `gaps` around them. */
  function Spread(gaps: seq<string>, words: seq<string>): string
    requires |gaps| == |words| + 1
    decreases |words|
  {
    if words == [] then gaps[0] else gaps[0] + (words[0] + Spread(gaps[1..], words[1..]))
  }

  /** The gaps are white space, none of those between two words is empty, and the words hold none. */
  predicate WellSpread(gaps: seq<string>, words: seq<string>) {
    && |gaps| == |words| + 1
    && (forall i, c | 0 <= i < |gaps| && c in gaps[i] :: Blank(c))
    && (forall i | 0 < i < |words| :: gaps[i] != "")
    && (forall i | 0 <= i < |words| :: words[i] != "" && forall c | c in words[i] :: !Blank(c))
  }

  lemma {:induction false} WordEnds(word: string, rest: string)
    requires (forall c | c in word :: !Blank(c)) && (rest == "" || Blank(rest[0]))
    ensures Word(word + rest) == word
  {
    if word == "" {
      assert word + rest == rest;
      if rest != "" {
        BlankIsSpace(rest[0]);
      }
    } else {
      BlankIsSpace(word[0]);
      assert (word + rest)[1..] == word[1..] + rest;
      WordEnds(word[1..], rest);
    }
  }

  /** `stream >> word` takes the next word and leaves the stream behind it, or takes nothing. */
  lemma NextWordIsRead(gaps: seq<string>, words: seq<string>, before: string)
    requires WellSpread(gaps, words)
    ensures Extract(Spread(gaps, words), before) == if words == [] then before else words[0]
    ensures words == [] ==> AfterWord(Spread(gaps, words)) == ""
    ensures words != [] ==>
              WellSpread(gaps[1..], words[1..]) && AfterWord(Spread(gaps, words)) == Spread(gaps[1..], words[1..])
  {
    if words == [] {
      assert gaps[0] + "" == gaps[0];
      SpacesAreSkipped(gaps[0], "");
    } else {
      var rest := Spread(gaps[1..], words[1..]);
      RestIsSpread(gaps, words);
      assert words[0][0] in words[0];
      SpacesAreSkipped(gaps[0], words[0] + rest);
      WordEnds(words[0], rest);
      assert (words[0] + rest)[|words[0]|..] == rest;
    }
  }

  lemma RestIsSpread(gaps: seq<string>, words: seq<string>)
    requires WellSpread(gaps, words) && words != []
    ensures WellSpread(gaps[1..], words[1..])
    ensures var rest := Spread(gaps[1..], words[1..]); rest == "" || Blank(rest[0])
  {
    var g, w := gaps[1..], words[1..];
    forall i, c | 0 <= i < |g| && c in g[i]
      ensures Blank(c)
    {
      assert c in gaps[i + 1];
    }
    assert forall i | 0 < i < |w| :: g[i] == gaps[i + 1];
    assert forall i | 0 <= i < |w| :: w[i] == words[i + 1];
    if gaps[1] != "" {
      assert gaps[1][0] in gaps[1];
    }
  }

  /** However a request line is spaced, its words are read in order: the method, the path, the version; what
      is missing keeps its old value, the method becomes unknown, and what follows is ignored. */
  lemma WordsAreRead(r: Request, gaps: seq<string>, words: seq<string>)
    requires WellSpread(gaps, words)
    ensures var q := r.ReadLine(Spread(gaps, words));
            && (q.verb.Get? <==> words != [] && words[0] == "GET")
            && (q.verb.Post? <==> words != [] && words[0] == "POST")
            && (q.verb.Head? <==> words != [] && words[0] == "HEAD")
            && q.path == (if |words| > 1 then words[1] else r.path)
            && q.version == (if |words| > 2 then words[2] else r.version)
            && q.error == (if |q.path| > 8192 then UriTooLong else r.error)
            && q.headers == r.headers && q.savedFiles == r.savedFiles
  {
    hide Spread, Extract, AfterWord;
    var line := Spread(gaps, words);
    NextWordIsRead(gaps, words, "");
    if words == [] {
      NothingIsExtracted(r.path);
      NothingIsExtracted(r.version);
    } else {
      NextWordIsRead(gaps[1..], words[1..], r.path);
      if |words| > 1 {
        NextWordIsRead(gaps[1..][1..], words[1..][1..], r.version);
        assert |words| > 2 ==> words[1..][1..][0] == words[2];
      } else {
        NothingIsExtracted(r.version);
      }
    }
  }

  lemma NothingIsExtracted(before: string)
    ensures Extract("", before) == before && AfterWord("") == ""
  {
  }

  /** Every line is spread in some way. */
  lemma {:induction false} EveryLineIsSpread(line: string) returns (gaps: seq<string>, words: seq<string>)
    ensures WellSpread(gaps, words) && Spread(gaps, words) == line
    decreases |line|
  {
    if line == "" {
      gaps, words := [""], [];
    } else {
      gaps, words := EveryLineIsSpread(line[1..]);
      var c := [line[0]];
      assert line == c + line[1..];
      if Blank(line[0]) {
        gaps := AddToGap(c, gaps, words);
      } else if gaps[0] == "" && words != [] {
        gaps, words := AddToWord(c, gaps, words);
      } else {
        gaps, words := AddWord(c, gaps, words);
      }
    }
  }

  lemma AddToGap(c: string, gaps: seq<string>, words: seq<string>) returns (g: seq<string>)
    requires WellSpread(gaps, words) && |c| == 1 && Blank(c[0])
    ensures WellSpread(g, words) && Spread(g, words) == c + Spread(gaps, words)
  {
    g := [c + gaps[0]] + gaps[1..];
    assert g[1..] == gaps[1..];
    forall i, x | 0 <= i < |g| && x in g[i]
      ensures Blank(x)
    {
      assert i > 0 ==> x in gaps[i];
      assert i == 0 ==> x == c[0] || x in gaps[0];
    }
    if words == [] {
    } else {
      assert c + gaps[0] + (words[0] + Spread(gaps[1..], words[1..]))
          == c + (gaps[0] + (words[0] + Spread(gaps[1..], words[1..])));
    }
  }

  lemma AddToWord(c: string, gaps: seq<string>, words: seq<string>) returns (g: seq<string>, w: seq<string>)
    requires WellSpread(gaps, words) && |c| == 1 && !Blank(c[0]) && words != [] && gaps[0] == ""
    ensures WellSpread(g, w) && Spread(g, w) == c + Spread(gaps, words)
  {
    g, w := gaps, [c + words[0]] + words[1..];
    assert w[1..] == words[1..];
    forall i | 0 <= i < |w|
      ensures w[i] != "" && forall x | x in w[i] :: !Blank(x)
    {
      assert i > 0 ==> w[i] == words[i];
    }
    var rest := Spread(gaps[1..], words[1..]);
    assert "" + (c + words[0] + rest) == c + ("" + (words[0] + rest));
  }

  lemma AddWord(c: string, gaps: seq<string>, words: seq<string>) returns (g: seq<string>, w: seq<string>)
    requires WellSpread(gaps, words) && |c| == 1 && !Blank(c[0]) && (words != [] ==> gaps[0] != "")
    ensures WellSpread(g, w) && Spread(g, w) == c + Spread(gaps, words)
  {
    g, w := [""] + gaps, [c] + words;
    assert g[1..] == gaps && w[1..] == words;
    forall i, x | 0 <= i < |g| && x in g[i]
      ensures Blank(x)
    {
      assert i > 0 && x in gaps[i - 1];
    }
    forall i | 0 < i < |w|
      ensures g[i] != ""
    {
      assert g[i] == gaps[i - 1];
    }
    assert "" + (c + Spread(gaps, words)) == c + Spread(gaps, words);
  }

  predicate IsWord(text: string) {
    text != [] && forall c | c in text :: !IsSpace(c)
  }

  function RequestLine(verb: string, path: string, version: string): string {
    verb + (" " + (path + (" " + version)))
  }

  lemma {:induction false} WordIsRead(word: string, rest: string)
    requires IsWord(word) && (rest == [] || IsSpace(rest[0]))
    ensures SkipSpaces(word + rest) == word + rest
    ensures Word(word + rest) == word
    decreases |word|
  {
    assert IsWord(word) && word[0] in word;
    assert (word + rest)[1..] == word[1..] + rest;
    if |word| == 1 {
      assert word[1..] + rest == rest;
      assert word == [word[0]] + Word(rest);
    } else {
      assert IsWord(word[1..]);
      WordIsRead(word[1..], rest);
    }
  }

  /** A request line gives back its three words. */
  lemma RequestLineIsRead(r: Request, verb: string, path: string, version: string)
    requires IsWord(verb) && IsWord(path) && IsWord(version) && |path| <= MAX_LINE_PATH
    ensures r.ReadLine(RequestLine(verb, path, version))
         == r.(verb := VerbOf(verb), path := path, version := version)
    ensures r.ReadLine(RequestLine(verb, path, version)).LineAccepted()
  {
    var tail := path + (" " + version);
    WordIsRead(verb, " " + tail);
    assert (verb + (" " + tail))[|verb|..] == " " + tail;
    WordAfterSpace(path, " " + version);
    assert (path + (" " + version))[|path|..] == " " + version;
    WordAfterSpace(version, "");
    assert version + "" == version;
  }

  lemma WordAfterSpace(word: string, rest: string)
    requires IsWord(word) && (rest == [] || IsSpace(rest[0]))
    ensures SkipSpaces(" " + (word + rest)) == word + rest
    ensures Word(word + rest) == word
  {
    WordIsRead(word, rest);
    assert (" " + (word + rest))[1..] == word + rest;
  }
}
