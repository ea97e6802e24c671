/** Which texts are types, and which: the accepted spellings stated on the text, without the parser. */
module TypeGrammar {
  import opened Outcomes
  import opened DataModel
  import opened TypeText

  // ---------------------------------------------------------------- spellings

  /** White space before `i` and from `j` on. */
  ghost predicate SpaceAround(s: string, i: nat, j: nat)
    requires i <= j <= |s|
  {
    forall k :: 0 <= k < i || j <= k < |s| ==> IsSpace(s[k])
  }

  /** `s` is `t` between white space, and `t` has none at its ends. */
  ghost predicate Padded(s: string, t: string) {
    Trimmed(t) && exists i: nat, j: nat :: i <= j <= |s| && SpaceAround(s, i, j) && s[i..j] == t
  }

  ghost predicate Blank(s: string) { forall k :: 0 <= k < |s| ==> IsSpace(s[k]) }

  /** `u` is `s` with the letters a to z made capital and all else kept. */
  ghost predicate Capitals(s: string, u: string) {
    && |u| == |s|
    && forall k :: 0 <= k < |s| ==> (u[k] as int) == (s[k] as int) - if 'a' <= s[k] <= 'z' then 32 else 0
  }

  /** The pieces between the commas. */
  ghost predicate Pieces(s: string, pieces: seq<string>) {
    && pieces != [] && Joined(pieces) == s
    && forall i :: 0 <= i < |pieces| ==> ',' !in pieces[i]
  }

  function Joined(pieces: seq<string>): string
    requires pieces != []
  {
    if |pieces| == 1 then pieces[0] else pieces[0] + [','] + Joined(pieces[1..])
  }

  /** The arguments in the parentheses: none in white space, and otherwise the pieces without the white
      space around them. */
  ghost predicate Parts(inner: string, parts: seq<string>) {
    if Blank(inner) then parts == []
    else
      exists pieces ::
        && Pieces(inner, pieces) && |parts| == |pieces|
        && forall i :: 0 <= i < |parts| ==> Padded(pieces[i], parts[i])
  }

  ghost predicate Called(u: string, before: string, inner: string) {
    '(' !in before && u == before + ['('] + (inner + [')'])
  }

  /** A capital text is a name alone, or a name and arguments in parentheses. */
  ghost predicate Capital(u: string, name: string, parts: seq<string>) {
    || ('(' !in u && name == u && parts == [])
    || exists before, inner :: Called(u, before, inner) && Padded(before, name) && Parts(inner, parts)
  }

  /** The text between outer white space, in capitals, is the name with the arguments. */
  ghost predicate Spelled(input: string, name: string, parts: seq<string>) {
    exists body, u :: Padded(input, body) && body != [] && Capitals(body, u) && Capital(u, name, parts)
  }

  /** An opening parenthesis, and no closing one at the end. */
  ghost predicate Unclosed(input: string, body: string) {
    Padded(input, body) && '(' in body && body[|body| - 1] != ')'
  }

  /** The code points with the Unicode White_Space property, one by one. */
  lemma SpacesAre(c: char)
    ensures IsSpace(c) <==>
            (c as int) in [0x9, 0xA, 0xB, 0xC, 0xD, 0x20, 0x85, 0xA0, 0x1680, 0x2000, 0x2001, 0x2002, 0x2003, 0x2004,
                           0x2005, 0x2006, 0x2007, 0x2008, 0x2009, 0x200A, 0x2028, 0x2029, 0x202F, 0x205F, 0x3000]
  {
  }

  // ---------------------------------------------------------------- numerals

  function DigitValue(c: char): nat
    requires '0' <= c <= '9'
  {
    (c as int) - ('0' as int)
  }

  /** Most significant digit first. */
  function Positional(d: string): nat
    requires forall i :: 0 <= i < |d| ==> '0' <= d[i] <= '9'
  {
    if d == [] then 0 else DigitValue(d[0]) * Pow10(|d| - 1) + Positional(d[1..])
  }

  predicate DecimalDigits(d: string) { d != [] && forall i :: 0 <= i < |d| ==> '0' <= d[i] <= '9' }

  /** Digits that stand for `n`, perhaps behind a plus sign. */
  predicate Denotes(text: string, n: nat) {
    || (DecimalDigits(text) && Positional(text) == n)
    || (text != [] && text[0] == '+' && DecimalDigits(text[1..]) && Positional(text[1..]) == n)
  }

  /** The decimal numeral of `n`, with no leading zero. */
  predicate Numeral(d: string, n: nat) {
    DecimalDigits(d) && Positional(d) == n && (d[0] == '0' ==> d == "0")
  }

  lemma {:induction false} LastDigit(d: string)
    requires DecimalDigits(d)
    ensures Positional(d) == 10 * Positional(d[..|d| - 1]) + DigitValue(d[|d| - 1])
  {
    var n := |d| - 1;
    if n == 0 {
      assert d[..n] == [] && d[1..] == [];
      assert Pow10(0) == 1;
    } else {
      LastDigit(d[1..]);
      assert d[1..][..n - 1] == d[..n][1..];
      MoveTen(DigitValue(d[0]), Pow10(n - 1), Pow10(n));
    }
  }

  lemma MoveTen(a: nat, p: nat, q: nat)
    requires q == 10 * p
    ensures a * q == 10 * (a * p)
  {
  }

  lemma {:induction false} NumberIsPositional(d: string)
    requires AllDigits(d)
    ensures NumberOf(d) == Positional(d)
  {
    if d != [] {
      NumberIsPositional(d[..|d| - 1]);
      LastDigit(d);
    }
  }

  /** Numbers are read as what they stand for, in range, and nothing else is read as a number. */
  lemma NumberReads(text: string, limit: nat, n: nat)
    ensures ParseNumber(text, limit) == Some(n) <==> Denotes(text, n) && n < limit
  {
    if DecimalDigits(text) { NumberIsPositional(text); }
    if text != [] && DecimalDigits(text[1..]) { NumberIsPositional(text[1..]); }
  }

  lemma {:induction false} PrintsNumeral(n: nat)
    ensures Numeral(PrintNumber(n), n)
  {
    PrintNumberReads(n);
    NumberIsPositional(PrintNumber(n));
    if n >= 10 {
      PrintsNumeral(n / 10);
      assert PrintNumber(n)[0] == PrintNumber(n / 10)[0];
      assert Positional("0") == 0;
    }
  }

  // ---------------------------------------------------------------- meanings

  predicate InRange(text: string, limit: nat) { exists n: nat :: Denotes(text, n) && n < limit }

  /** Name and arguments are the type. */
  predicate IsType(name: string, parts: seq<string>, t: PrimitiveDataType) {
    match t
    case IntType => name in ["INT", "INTEGER"] && parts == []
    case BigIntType => name == "BIGINT" && parts == []
    case BooleanType => name in ["BOOLEAN", "BOOL"] && parts == []
    case DateTimeType => name == "DATETIME" && parts == []
    case FloatType => name in ["FLOAT", "DOUBLE"] && parts == []
    case Varchar(length) => name == "VARCHAR" && |parts| == 1 && Denotes(parts[0], length)
    case BlobType(size) => name == "BLOB" && |parts| == 1 && Denotes(parts[0], size)
    case DecimalType(p, s) =>
      && name == "DECIMAL" && s <= p
      && if parts == [] then p == 18 && s == 0 else |parts| == 2 && Denotes(parts[0], p) && Denotes(parts[1], s)
    case Unknown => false
  }

  /** How a type without numbers is named in errors. */
  predicate Reported(name: string, typeName: string) {
    || (typeName == "INT" && name in ["INT", "INTEGER"]) || (typeName == "BIGINT" && name == "BIGINT")
    || (typeName == "BOOLEAN" && name in ["BOOLEAN", "BOOL"]) || (typeName == "DATETIME" && name == "DATETIME")
    || (typeName == "FLOAT" && name in ["FLOAT", "DOUBLE"])
  }

  /** Name and arguments are refused with the error. */
  ghost predicate IsError(name: string, parts: seq<string>, e: SchemaError) {
    match e
    case EmptyInput => false
    case InvalidFormat(_) => false
    case UnknownType(unknown) =>
      unknown == name && name !in ["VARCHAR", "BLOB", "DECIMAL"] && forall t :: !Reported(name, t)
    case ArgumentMismatch(t, expected, found) =>
      && found == |parts|
      && (|| (expected == "0" && Reported(name, t) && found > 0)
          || (expected == "1" && t == name && name in ["VARCHAR", "BLOB"] && found != 1)
          || (expected == "0 or 2" && t == name && name == "DECIMAL" && found != 0 && found != 2))
    case InvalidNumber(text) =>
      || (name == "VARCHAR" && parts == [text] && !InRange(text, 0x1_0000))
      || (name == "BLOB" && parts == [text] && !InRange(text, 0x1_0000_0000))
      || (name == "DECIMAL" && |parts| == 2
          && if InRange(parts[0], 256) then text == parts[1] && !InRange(text, 256) else text == parts[0])
    case InvalidScale(p, s) =>
      name == "DECIMAL" && |parts| == 2 && Denotes(parts[0], p) && Denotes(parts[1], s) && s > p
  }

  lemma ReadsInRange(text: string, limit: nat)
    ensures ParseNumber(text, limit).Some? <==> InRange(text, limit)
    ensures ParseNumber(text, limit).Some? ==>
              ParseNumber(text, limit).value < limit && Denotes(text, ParseNumber(text, limit).value)
  {
    if ParseNumber(text, limit).Some? { NumberReads(text, limit, ParseNumber(text, limit).value); }
    if InRange(text, limit) {
      var n: nat :| Denotes(text, n) && n < limit;
      NumberReads(text, limit, n);
    }
  }

  predicate Sized(name: string) { name == "VARCHAR" || name == "BLOB" }

  lemma SizedMeans(name: string, parts: seq<string>, t: PrimitiveDataType, e: SchemaError)
    requires Sized(name)
    ensures !Build(name, parts).Panicked?
    ensures Build(name, parts) == Done(t) <==> IsType(name, parts, t)
    ensures Build(name, parts) == Failed(e) <==> IsError(name, parts, e)
  {
    if |parts| == 1 {
      ReadsInRange(parts[0], 0x1_0000);
      ReadsInRange(parts[0], 0x1_0000_0000);
      if t.Varchar? { NumberReads(parts[0], 0x1_0000, t.length); }
      if t.BlobType? { NumberReads(parts[0], 0x1_0000_0000, t.size); }
      if e.InvalidNumber? { assert parts == [e.argument] <==> parts[0] == e.argument; }
    }
  }

  lemma DecimalMeans(parts: seq<string>, t: PrimitiveDataType, e: SchemaError)
    ensures !Build("DECIMAL", parts).Panicked?
    ensures Build("DECIMAL", parts) == Done(t) <==> IsType("DECIMAL", parts, t)
    ensures Build("DECIMAL", parts) == Failed(e) <==> IsError("DECIMAL", parts, e)
  {
    if |parts| == 2 {
      ReadsInRange(parts[0], 256);
      ReadsInRange(parts[1], 256);
      if t.DecimalType? {
        NumberReads(parts[0], 256, t.precision);
        NumberReads(parts[1], 256, t.scale);
      }
      if e.InvalidScale? {
        NumberReads(parts[0], 256, e.precision);
        NumberReads(parts[1], 256, e.scale);
      }
    }
  }

  lemma PlainMeans(name: string, parts: seq<string>, t: PrimitiveDataType, e: SchemaError)
    requires !Sized(name) && name != "DECIMAL"
    ensures !Build(name, parts).Panicked?
    ensures Build(name, parts) == Done(t) <==> IsType(name, parts, t)
    ensures Build(name, parts) == Failed(e) <==> IsError(name, parts, e)
  {
    assert Reported("INT", "INT") && Reported("INTEGER", "INT") && Reported("BIGINT", "BIGINT")
           && Reported("BOOLEAN", "BOOLEAN") && Reported("BOOL", "BOOLEAN") && Reported("DATETIME", "DATETIME")
           && Reported("FLOAT", "FLOAT") && Reported("DOUBLE", "FLOAT");
  }

  lemma BuildMeans(name: string, parts: seq<string>, t: PrimitiveDataType, e: SchemaError)
    ensures !Build(name, parts).Panicked?
    ensures Build(name, parts) == Done(t) <==> IsType(name, parts, t)
    ensures Build(name, parts) == Failed(e) <==> IsError(name, parts, e)
  {
    if Sized(name) {
      SizedMeans(name, parts, t, e);
    } else if name == "DECIMAL" {
      DecimalMeans(parts, t, e);
    } else {
      PlainMeans(name, parts, t, e);
    }
  }

  // ---------------------------------------------------------------- reading the text

  lemma {:induction false} TrimStartAt(s: string, i: nat)
    requires i <= |s| && (forall k :: 0 <= k < i ==> IsSpace(s[k])) && (i < |s| ==> !IsSpace(s[i]))
    ensures TrimStart(s) == s[i..]
  {
    if i > 0 { TrimStartAt(s[1..], i - 1); }
  }

  lemma {:induction false} TrimEndAt(s: string, j: nat)
    requires j <= |s| && (forall k :: j <= k < |s| ==> IsSpace(s[k])) && (j > 0 ==> !IsSpace(s[j - 1]))
    ensures TrimEnd(s) == s[..j]
  {
    if j < |s| {
      var n := |s| - 1;
      TrimEndAt(s[..n], j);
      assert s[..n][..j] == s[..j];
    } else {
      assert s[..j] == s;
    }
  }

  lemma TrimBlank(s: string)
    requires Blank(s)
    ensures Trim(s) == []
  {
    TrimStartAt(s, |s|);
  }

  lemma TrimsTo(s: string, i: nat, j: nat)
    requires i <= j <= |s| && SpaceAround(s, i, j) && Trimmed(s[i..j])
    ensures Trim(s) == s[i..j]
  {
    if i == j {
      TrimBlank(s);
    } else {
      assert s[i..j][0] == s[i] && s[i..j][j - i - 1] == s[j - 1];
      TrimStartAt(s, i);
      assert forall k :: j - i <= k < |s[i..]| ==> s[i..][k] == s[i + k];
      TrimEndAt(s[i..], j - i);
      assert s[i..][..j - i] == s[i..j];
    }
  }

  lemma PaddedIsTrim(s: string, t: string)
    requires Padded(s, t)
    ensures Trim(s) == t
  {
    var i: nat, j: nat :| i <= j <= |s| && SpaceAround(s, i, j) && s[i..j] == t;
    TrimsTo(s, i, j);
  }

  lemma {:induction false} SomeStart(s: string) returns (i: nat)
    ensures i <= |s| && (forall k :: 0 <= k < i ==> IsSpace(s[k])) && (i < |s| ==> !IsSpace(s[i]))
  {
    if s == [] || !IsSpace(s[0]) {
      i := 0;
    } else {
      i := SomeStart(s[1..]);
      i := i + 1;
    }
  }

  lemma {:induction false} SomeEnd(s: string) returns (j: nat)
    ensures j <= |s| && (forall k :: j <= k < |s| ==> IsSpace(s[k])) && (j > 0 ==> !IsSpace(s[j - 1]))
  {
    if s == [] || !IsSpace(s[|s| - 1]) { j := |s|; } else { j := SomeEnd(s[..|s| - 1]); }
  }

  /** Trimming takes the white space from both ends, and nothing else. */
  lemma TrimIsPadded(s: string)
    ensures Padded(s, Trim(s))
  {
    var i := SomeStart(s);
    if i == |s| {
      TrimBlank(s);
      assert SpaceAround(s, 0, 0) && s[0..0] == [];
    } else {
      var j := SomeEnd(s);
      assert i < j;
      assert s[i..j][0] == s[i] && s[i..j][j - i - 1] == s[j - 1];
      assert SpaceAround(s, i, j);
      TrimsTo(s, i, j);
    }
  }

  lemma UpperIsCapitals(s: string, u: string)
    ensures Capitals(s, u) <==> u == Upper(s)
  {
    if Capitals(s, u) { forall k | 0 <= k < |s| ensures u[k] == Upper(s)[k] {} }
  }

  lemma CutFirst(s: string, first: string, rest: string)
    requires s == first + [','] + rest
    ensures |first| < |s| && s[..|first|] == first && s[|first| + 1..] == rest
  {
  }

  lemma {:induction false} SplitsPieces(s: string, pieces: seq<string>)
    requires Pieces(s, pieces)
    ensures Split(s) == pieces
  {
    if |pieces| == 1 {
      SplitOne(s);
      assert pieces == [s];
    } else {
      var first, rest := pieces[0], Joined(pieces[1..]);
      FindAfter(first, ',', rest);
      CutFirst(s, first, rest);
      assert Pieces(rest, pieces[1..]);
      SplitsPieces(rest, pieces[1..]);
      assert pieces == [first] + pieces[1..];
    }
  }

  lemma {:induction false} SplitIsPieces(s: string)
    ensures Pieces(s, Split(s))
    decreases |s|
  {
    var i := Find(s, ',');
    if i < |s| {
      var rest := s[i + 1..];
      SplitIsPieces(rest);
      assert Split(s)[1..] == Split(rest);
      assert s == s[..i] + [','] + rest;
      forall k | 0 <= k < |Split(s)| ensures ',' !in Split(s)[k] {
        if k > 0 { assert Split(s)[k] == Split(rest)[k - 1]; }
      }
    }
  }

  lemma PartsAreArguments(inner: string, parts: seq<string>)
    ensures Parts(inner, parts) <==> parts == Arguments(inner)
  {
    if Blank(inner) {
      TrimBlank(inner);
    } else {
      NotBlankTrims(inner);
      SplitIsPieces(inner);
      PartsIff(inner, parts);
    }
  }

  lemma NotBlankTrims(s: string)
    requires !Blank(s)
    ensures Trim(s) != []
  {
    TrimIsPadded(s);
    var i: nat, j: nat :| i <= j <= |s| && SpaceAround(s, i, j) && s[i..j] == Trim(s);
    assert i == j ==> Blank(s);
  }

  lemma PartsIff(inner: string, parts: seq<string>)
    requires !Blank(inner) && Pieces(inner, Split(inner))
    ensures Parts(inner, parts) <==> parts == TrimAll(Split(inner))
  {
    if Parts(inner, parts) {
      var pieces :| Pieces(inner, pieces) && |parts| == |pieces|
                    && forall i :: 0 <= i < |parts| ==> Padded(pieces[i], parts[i]);
      SplitsPieces(inner, pieces);
      forall i | 0 <= i < |parts| ensures parts[i] == TrimAll(pieces)[i] { PaddedIsTrim(pieces[i], parts[i]); }
    }
    if parts == TrimAll(Split(inner)) {
      forall i | 0 <= i < |parts| ensures Padded(Split(inner)[i], parts[i]) { TrimIsPadded(Split(inner)[i]); }
    }
  }

  lemma CalledAt(u: string, before: string, inner: string)
    requires Called(u, before, inner)
    ensures Find(u, '(') == |before| && |before| < |u| - 1 && u[|u| - 1] == ')'
    ensures u[..|before|] == before && u[|before| + 1..|u| - 1] == inner
  {
    FindAfter(before, '(', inner + [')']);
    CallEnds(u, before, inner + [')'], inner);
  }

  lemma CallParses(input: string, u: string, open: nat, before: string, inner: string)
    requires open < |u| - 1 && u[open] == '(' && u[|u| - 1] == ')'
    requires u[..open] == before && u[open + 1..|u| - 1] == inner
    ensures ParseAt(input, u, open) == Build(Trim(before), Arguments(inner))
  {
  }

  lemma CallBuilds(input: string, u: string, before: string, inner: string)
    requires Called(u, before, inner)
    ensures u != [] && ParseNormalized(input, u) == Build(Trim(before), Arguments(inner))
  {
    CalledAt(u, before, inner);
    CallParses(input, u, |before|, before, inner);
  }

  lemma CapitalBuilds(input: string, u: string, name: string, parts: seq<string>)
    requires u != [] && Capital(u, name, parts)
    ensures ParseNormalized(input, u) == Build(name, parts)
  {
    if '(' !in u {
      FindNone(u, '(');
    } else {
      var before, inner :| Called(u, before, inner) && Padded(before, name) && Parts(inner, parts);
      CallBuilds(input, u, before, inner);
      PaddedIsTrim(before, name);
      PartsAreArguments(inner, parts);
    }
  }

  /** A text spelled as a name with arguments parses to what they mean, and to nothing else. */
  lemma SpelledMeans(input: string, name: string, parts: seq<string>, t: PrimitiveDataType, e: SchemaError)
    requires Spelled(input, name, parts)
    ensures Parse(input) == Done(t) <==> IsType(name, parts, t)
    ensures Parse(input) == Failed(e) <==> IsError(name, parts, e)
    ensures !Parse(input).Panicked?
  {
    var body, u :| Padded(input, body) && body != [] && Capitals(body, u) && Capital(u, name, parts);
    PaddedIsTrim(input, body);
    UpperIsCapitals(body, u);
    CapitalBuilds(body, u, name, parts);
    BuildMeans(name, parts, t, e);
  }

  lemma UpperKeepsBrackets(s: string)
    ensures '(' in Upper(s) <==> '(' in s
    ensures forall k :: 0 <= k < |s| ==> (Upper(s)[k] == ')' <==> s[k] == ')')
  {
    if '(' in s {
      var k :| 0 <= k < |s| && s[k] == '(';
      assert Upper(s)[k] == '(';
    }
  }

  lemma BlankIsEmpty(input: string)
    requires Blank(input)
    ensures Parse(input) == Failed(EmptyInput)
  {
    TrimBlank(input);
  }

  lemma UnclosedIsInvalid(input: string, body: string)
    requires Unclosed(input, body)
    ensures Parse(input) == Failed(InvalidFormat(body))
  {
    PaddedIsTrim(input, body);
    UpperKeepsBrackets(body);
    OpenIsInvalid(body, Upper(body));
  }

  lemma OpenIsInvalid(input: string, u: string)
    requires '(' in u && u[|u| - 1] != ')'
    ensures ParseNormalized(input, u) == Failed(InvalidFormat(input))
  {
    FindsIt(u, '(');
  }

  lemma FindsIt(s: string, c: char)
    requires c in s
    ensures Find(s, c) < |s|
  {
  }

  lemma CutCall(u: string, open: nat)
    requires open < |u| - 1 && u[open] == '(' && u[|u| - 1] == ')' && '(' !in u[..open]
    ensures Called(u, u[..open], u[open + 1..|u| - 1])
  {
    var inner := u[open + 1..|u| - 1];
    assert u[open + 1..] == inner + [')'];
    assert u == u[..open] + [u[open]] + u[open + 1..];
  }

  lemma CapitalIs(u: string) returns (name: string, parts: seq<string>)
    requires u != [] && ('(' in u ==> u[|u| - 1] == ')')
    ensures Capital(u, name, parts)
  {
    if '(' !in u {
      name, parts := u, [];
    } else {
      var open := Find(u, '(');
      FindsIt(u, '(');
      CutCall(u, open);
      var before, inner := u[..open], u[open + 1..|u| - 1];
      name, parts := Trim(before), Arguments(inner);
      TrimIsPadded(before);
      PartsAreArguments(inner, parts);
    }
  }

  /** Every text is blank, or has a parenthesis that is not closed at the end, or is spelled as a name
      with arguments. */
  lemma EveryText(input: string) returns (name: string, parts: seq<string>)
    ensures Blank(input) || Unclosed(input, Trim(input)) || Spelled(input, name, parts)
  {
    name, parts := [], [];
    var body := Trim(input);
    TrimIsPadded(input);
    UpperKeepsBrackets(body);
    UpperIsCapitals(body, Upper(body));
    if !Blank(input) && !Unclosed(input, body) {
      NotBlankTrims(input);
      name, parts := CapitalIs(Upper(body));
    }
  }

  // ---------------------------------------------------------------- the printed text

  /** The text of each type; `m` and `n` are the numerals of its numbers. */
  predicate PrintedAs(t: PrimitiveDataType, m: string, n: string, text: string) {
    match t
    case Unknown => text == "UNKNOWN"
    case IntType => text == "INT"
    case BigIntType => text == "BIGINT"
    case BooleanType => text == "BOOLEAN"
    case DateTimeType => text == "DATETIME"
    case FloatType => text == "FLOAT"
    case Varchar(length) => Numeral(m, length) && text == "VARCHAR(" + m + ")"
    case BlobType(size) => Numeral(m, size) && text == "BLOB(" + m + ")"
    case DecimalType(p, s) => Numeral(m, p) && Numeral(n, s) && text == "DECIMAL(" + m + ", " + n + ")"
  }

  lemma PrintedText(t: PrimitiveDataType)
    ensures exists m, n :: PrintedAs(t, m, n, Print(t))
  {
    var m, n := "", "";
    match t {
      case Varchar(length) => m := PrintNumber(length); PrintsNumeral(length);
      case BlobType(size) => m := PrintNumber(size); PrintsNumeral(size);
      case DecimalType(p, s) => m, n := PrintNumber(p), PrintNumber(s); PrintsNumeral(p); PrintsNumeral(s);
      case _ =>
    }
    assert PrintedAs(t, m, n, Print(t));
  }
}
