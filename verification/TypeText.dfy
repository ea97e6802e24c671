/** The SQL text of column types: printing and parsing. */
module TypeText {
  import opened Bytes
  import opened Outcomes
  import opened DataModel

  datatype SchemaError =
    | EmptyInput
    | InvalidFormat(input: string)
    | ArgumentMismatch(typeName: string, expected: string, found: nat)
    | InvalidNumber(argument: string)
    | InvalidScale(precision: U8, scale: U8)
    | UnknownType(name: string)

  // ---------------------------------------------------------------- text

  /** The Unicode White_Space property. */
  predicate IsSpace(c: char) {
    || '\U{9}' <= c <= '\U{D}' || c == ' ' || c == '\U{85}' || c == '\U{A0}' || c == '\U{1680}'
    || '\U{2000}' <= c <= '\U{200A}' || c == '\U{2028}' || c == '\U{2029}' || c == '\U{202F}' || c == '\U{205F}'
        || c == '\U{3000}'
  }

  function TrimStart(s: string): string {
    if s == [] || !IsSpace(s[0]) then s else TrimStart(s[1..])
  }

  function TrimEnd(s: string): string {
    if s == [] || !IsSpace(s[|s| - 1]) then s else TrimEnd(s[..|s| - 1])
  }

  function Trim(s: string): string { TrimEnd(TrimStart(s)) }

  /** Text with no white space at either end. */
  predicate Trimmed(s: string) { s != [] ==> !IsSpace(s[0]) && !IsSpace(s[|s| - 1]) }

  function UpperChar(c: char): char {
    if 'a' <= c <= 'z' then ((c as int) - ('a' as int) + ('A' as int)) as char else c
  }

  function Upper(s: string): (u: string)
    ensures |u| == |s| && forall i :: 0 <= i < |s| ==> u[i] == UpperChar(s[i])
  {
    seq(|s|, i requires 0 <= i < |s| => UpperChar(s[i]))
  }

  /** First index of a character, or the length. */
  function Find(s: string, c: char): (i: nat)
    ensures i <= |s| && (i < |s| ==> s[i] == c) && forall j :: 0 <= j < i ==> s[j] != c
  {
    if s == [] || s[0] == c then 0 else 1 + Find(s[1..], c)
  }

  function Split(s: string): (parts: seq<string>)
    ensures |parts| > 0
    decreases |s|
  {
    var i := Find(s, ',');
    if i == |s| then [s] else [s[..i]] + Split(s[i + 1..])
  }

  function TrimAll(parts: seq<string>): (trimmed: seq<string>)
    ensures |trimmed| == |parts|
  {
    seq(|parts|, i requires 0 <= i < |parts| => Trim(parts[i]))
  }

  // ---------------------------------------------------------------- numbers

  predicate IsDigit(c: char) { '0' <= c <= '9' }

  function DigitChar(d: nat): char
    requires d < 10
  {
    (('0' as int) + d) as char
  }

  function PrintNumber(n: nat): string {
    if n < 10 then [DigitChar(n)] else PrintNumber(n / 10) + [DigitChar(n % 10)]
  }

  predicate AllDigits(s: string) { forall i :: 0 <= i < |s| ==> IsDigit(s[i]) }

  function NumberOf(s: string): nat
    requires AllDigits(s)
  {
    if s == [] then 0 else 10 * NumberOf(s[..|s| - 1]) + ((s[|s| - 1] as int) - ('0' as int))
  }

  /** Parsing to an unsigned integer type with `limit` values: an optional plus sign, then digits. */
  function ParseNumber(s: string, limit: int): Option<nat> {
    var digits := if s != [] && s[0] == '+' then s[1..] else s;
    if digits == [] || !AllDigits(digits) || NumberOf(digits) >= limit then None else Some(NumberOf(digits))
  }

  lemma {:induction false} PrintNumberReads(n: nat)
    ensures PrintNumber(n) != [] && AllDigits(PrintNumber(n)) && NumberOf(PrintNumber(n)) == n
  {
    if n >= 10 {
      PrintNumberReads(n / 10);
      assert PrintNumber(n)[..|PrintNumber(n)| - 1] == PrintNumber(n / 10);
    }
  }

  /** A printed number parses to itself exactly when it is in range. */
  lemma NumberRoundTrips(n: nat, limit: int)
    ensures ParseNumber(PrintNumber(n), limit) == if n < limit then Some(n) else None
  {
    PrintNumberReads(n);
    assert IsDigit(PrintNumber(n)[0]);
  }

  // ---------------------------------------------------------------- types

  function Print(t: PrimitiveDataType): string {
    match t
    case Unknown => "UNKNOWN"
    case IntType => "INT"
    case BigIntType => "BIGINT"
    case Varchar(length) => "VARCHAR(" + PrintNumber(length) + ")"
    case BooleanType => "BOOLEAN"
    case DecimalType(p, s) => "DECIMAL(" + PrintNumber(p) + ", " + PrintNumber(s) + ")"
    case DateTimeType => "DATETIME"
    case FloatType => "FLOAT"
    case BlobType(size) => "BLOB(" + PrintNumber(size) + ")"
  }

  function NewDecimal(p: U8, s: U8): Outcome<PrimitiveDataType, SchemaError> {
    if s > p then Failed(InvalidScale(p, s)) else Done(DecimalType(p, s))
  }

  function Plain(t: PrimitiveDataType, name: string, args: seq<string>): Outcome<PrimitiveDataType, SchemaError> {
    if args != [] then Failed(ArgumentMismatch(name, "0", |args|)) else Done(t)
  }

  function BuildVarchar(args: seq<string>): Outcome<PrimitiveDataType, SchemaError> {
    if |args| != 1 then Failed(ArgumentMismatch("VARCHAR", "1", |args|))
    else
      match ParseNumber(args[0], U16_LIMIT)
      case None => Failed(InvalidNumber(args[0]))
      case Some(n) => Done(Varchar(n))
  }

  function BuildBlob(args: seq<string>): Outcome<PrimitiveDataType, SchemaError> {
    if |args| != 1 then Failed(ArgumentMismatch("BLOB", "1", |args|))
    else
      match ParseNumber(args[0], U32_LIMIT)
      case None => Failed(InvalidNumber(args[0]))
      case Some(n) => Done(BlobType(n))
  }

  function BuildDecimal(args: seq<string>): Outcome<PrimitiveDataType, SchemaError> {
    if args == [] then Done(DecimalType(18, 0))
    else if |args| != 2 then Failed(ArgumentMismatch("DECIMAL", "0 or 2", |args|))
    else
      match ParseNumber(args[0], 256)
      case None => Failed(InvalidNumber(args[0]))
      case Some(p) =>
        match ParseNumber(args[1], 256)
        case None => Failed(InvalidNumber(args[1]))
        case Some(s) => NewDecimal(p, s)
  }

  function Build(name: string, args: seq<string>): Outcome<PrimitiveDataType, SchemaError> {
    if name == "INT" || name == "INTEGER" then Plain(IntType, "INT", args)
    else if name == "BIGINT" then Plain(BigIntType, "BIGINT", args)
    else if name == "VARCHAR" then BuildVarchar(args)
    else if name == "BOOLEAN" || name == "BOOL" then Plain(BooleanType, "BOOLEAN", args)
    else if name == "DECIMAL" then BuildDecimal(args)
    else if name == "DATETIME" then Plain(DateTimeType, "DATETIME", args)
    else if name == "FLOAT" || name == "DOUBLE" then Plain(FloatType, "FLOAT", args)
    else if name == "BLOB" then BuildBlob(args)
    else Failed(UnknownType(name))
  }

  /** The arguments between the parentheses; white space alone is none. */
  function Arguments(s: string): seq<string> {
    if Trim(s) == [] then [] else TrimAll(Split(s))
  }

  /** The name and the arguments, with `open` the index of the first opening parenthesis, if any. */
  function ParseAt(input: string, normalized: string, open: nat): Outcome<PrimitiveDataType, SchemaError>
    requires normalized != [] && open <= |normalized| && (open < |normalized| ==> normalized[open] == '(')
  {
    if open == |normalized| then Build(normalized, [])
    else if normalized[|normalized| - 1] != ')' then Failed(InvalidFormat(input))
    else Build(Trim(normalized[..open]), Arguments(normalized[open + 1..|normalized| - 1]))
  }

  function ParseNormalized(input: string, normalized: string): Outcome<PrimitiveDataType, SchemaError>
    requires normalized != []
  {
    ParseAt(input, normalized, Find(normalized, '('))
  }

  function Parse(input: string): Outcome<PrimitiveDataType, SchemaError> {
    var text := Trim(input);
    if text == [] then Failed(EmptyInput) else ParseNormalized(text, Upper(text))
  }

  // ---------------------------------------------------------------- lemmas on text

  lemma {:induction false} TrimStartTrims(s: string)
    ensures TrimStart(s) != [] ==> !IsSpace(TrimStart(s)[0])
    ensures s != [] && !IsSpace(s[|s| - 1]) ==> TrimStart(s) != [] && TrimStart(s)[|TrimStart(s)| - 1] == s[|s| - 1]
  {
    if s != [] && IsSpace(s[0]) { TrimStartTrims(s[1..]); }
  }

  lemma {:induction false} TrimEndTrims(s: string)
    ensures TrimEnd(s) != [] ==> !IsSpace(TrimEnd(s)[|TrimEnd(s)| - 1]) && TrimEnd(s)[0] == s[0]
    ensures s == [] ==> TrimEnd(s) == []
  {
    if s != [] && IsSpace(s[|s| - 1]) { TrimEndTrims(s[..|s| - 1]); }
  }

  /** Trimming leaves trimmed text, and leaves it alone. */
  lemma TrimTrims(s: string)
    ensures Trimmed(Trim(s)) && Trim(Trim(s)) == Trim(s)
    ensures Trimmed(s) ==> Trim(s) == s
  {
    TrimStartTrims(s);
    TrimEndTrims(TrimStart(s));
    if TrimStart(s) == [] { assert TrimEnd(TrimStart(s)) == []; }
  }

  lemma UpperKeepsSpace(c: char)
    ensures IsSpace(UpperChar(c)) <==> IsSpace(c)
    ensures UpperChar(UpperChar(c)) == UpperChar(c)
  {
  }

  lemma {:induction false} UpperTrimStart(s: string)
    ensures TrimStart(Upper(s)) == Upper(TrimStart(s))
  {
    if s != [] {
      UpperKeepsSpace(s[0]);
      if IsSpace(s[0]) {
        assert Upper(s)[1..] == Upper(s[1..]);
        UpperTrimStart(s[1..]);
      }
    }
  }

  lemma {:induction false} UpperTrimEnd(s: string)
    ensures TrimEnd(Upper(s)) == Upper(TrimEnd(s))
  {
    if s != [] {
      var n := |s| - 1;
      UpperKeepsSpace(s[n]);
      if IsSpace(s[n]) {
        assert Upper(s)[..n] == Upper(s[..n]);
        UpperTrimEnd(s[..n]);
      }
    }
  }

  lemma {:induction false} FindAfter(a: string, c: char, b: string)
    requires c !in a
    ensures Find(a + [c] + b, c) == |a|
  {
    var s := a + [c] + b;
    forall j | 0 <= j < |a| ensures s[j] != c { assert s[j] == a[j]; }
    assert s[|a|] == c;
  }

  lemma FindNone(a: string, c: char)
    requires c !in a
    ensures Find(a, c) == |a|
  {
  }

  lemma SplitOne(a: string)
    requires ',' !in a
    ensures Split(a) == [a]
  {
    FindNone(a, ',');
  }

  lemma SplitTwo(a: string, b: string)
    requires ',' !in a && ',' !in b
    ensures Split(a + [','] + b) == [a, b]
  {
    FindAfter(a, ',', b);
    var s := a + [','] + b;
    assert s[..|a|] == a && s[|a| + 1..] == b;
    SplitOne(b);
  }

  // ---------------------------------------------------------------- round trips

  /** Text that trimming and upper-casing leave alone. */
  lemma NormalText(s: string)
    requires s != [] && Trimmed(s) && forall i :: 0 <= i < |s| ==> UpperChar(s[i]) == s[i]
    ensures Parse(s) == ParseNormalized(s, s)
  {
    TrimTrims(s);
    assert Upper(s) == s;
  }

  predicate IsName(name: string) {
    name != [] && forall i :: 0 <= i < |name| ==> 'A' <= name[i] <= 'Z'
  }

  lemma ParseName(name: string)
    requires IsName(name)
    ensures Parse(name) == Build(name, [])
  {
    assert name[0] != ' ' && name[|name| - 1] != ' ';
    NormalText(name);
    assert '(' !in name;
    FindNone(name, '(');
  }

  predicate IsArgument(c: char) { IsDigit(c) || c == ',' || c == ' ' }

  lemma ParseCall(name: string, args: string, s: string)
    requires IsName(name) && forall i :: 0 <= i < |args| ==> IsArgument(args[i])
    requires s == name + ['('] + (args + [')'])
    ensures Parse(s) == Build(name, Arguments(args))
  {
    CallIsNormal(name, args, s);
    NormalText(s);
    CallParts(name, args, s);
    TrimTrims(name);
    NormalCall(s, name, args);
  }

  lemma NormalCall(s: string, name: string, args: string)
    requires Trim(name) == name && |s| >= 2 && |name| < |s| - 1 && Find(s, '(') == |name|
    requires s[..|name|] == name && s[|s| - 1] == ')' && s[|name| + 1..|s| - 1] == args
    ensures ParseNormalized(s, s) == Build(name, Arguments(args))
  {
  }

  lemma CallIsNormal(name: string, args: string, s: string)
    requires IsName(name) && forall i :: 0 <= i < |args| ==> IsArgument(args[i])
    requires s == name + ['('] + (args + [')'])
    ensures s != [] && Trimmed(s) && forall i :: 0 <= i < |s| ==> UpperChar(s[i]) == s[i]
  {
    assert s[0] == name[0] && s[|s| - 1] == ')';
    forall i | 0 <= i < |s| ensures UpperChar(s[i]) == s[i] {
      if |name| < i < |s| - 1 { assert s[i] == args[i - |name| - 1]; }
    }
  }

  lemma CallEnds(u: string, before: string, rest: string, inner: string)
    requires u == before + ['('] + rest && rest == inner + [')']
    ensures |before| < |u| - 1 && u[|u| - 1] == ')' && u[..|before|] == before && u[|before| + 1..|u| - 1] == inner
  {
    assert u[|before| + 1..] == rest;
    assert rest[..|inner|] == inner;
  }

  lemma CallParts(name: string, args: string, s: string)
    requires IsName(name) && s == name + ['('] + (args + [')'])
    ensures Find(s, '(') == |name| && s[..|name|] == name
    ensures s[|s| - 1] == ')' && s[|name| + 1..|s| - 1] == args
  {
    assert '(' !in name;
    FindAfter(name, '(', args + [')']);
    CallEnds(s, name, args + [')'], args);
  }

  lemma DigitsAreTrimmed(d: string)
    requires d != [] && AllDigits(d)
    ensures Trim(d) == d && Trim([' '] + d) == d && ',' !in d
  {
    assert IsDigit(d[0]) && IsDigit(d[|d| - 1]);
    TrimTrims(d);
    assert ([' '] + d)[1..] == d;
    assert TrimStart([' '] + d) == TrimStart(d);
  }

  lemma OneArgument(d: string)
    requires d != [] && AllDigits(d)
    ensures Arguments(d) == [d]
  {
    DigitsAreTrimmed(d);
    SplitOne(d);
  }

  lemma TwoArguments(p: string, s: string)
    requires p != [] && AllDigits(p) && s != [] && AllDigits(s)
    ensures Arguments(p + ", " + s) == [p, s]
  {
    DigitsAreTrimmed(p);
    DigitsAreTrimmed(s);
    assert p + ", " + s == p + [','] + ([' '] + s);
    SplitTwo(p, [' '] + s);
    NotBlank(p + ", " + s);
  }

  lemma NotBlank(s: string)
    requires s != [] && IsDigit(s[0]) && IsDigit(s[|s| - 1])
    ensures Trim(s) != []
  {
    TrimTrims(s);
  }

  lemma ParseWithNumber(name: string, n: nat, s: string)
    requires IsName(name) && s == name + ['('] + (PrintNumber(n) + [')'])
    ensures Parse(s) == Build(name, [PrintNumber(n)])
  {
    PrintNumberReads(n);
    OneArgument(PrintNumber(n));
    ParseCall(name, PrintNumber(n), s);
  }

  lemma BuildsVarchar(n: U16T, text: string)
    requires ParseNumber(text, U16_LIMIT) == Some(n)
    ensures Build("VARCHAR", [text]) == Done(Varchar(n))
  {
  }

  lemma ParseVarchar(n: U16T, s: string)
    requires s == "VARCHAR(" + PrintNumber(n) + ")"
    ensures Parse(s) == Done(Varchar(n))
  {
    ParseWithNumber("VARCHAR", n, s);
    NumberRoundTrips(n, U16_LIMIT);
    BuildsVarchar(n, PrintNumber(n));
  }

  lemma BuildsBlob(n: U32T, text: string)
    requires ParseNumber(text, U32_LIMIT) == Some(n)
    ensures Build("BLOB", [text]) == Done(BlobType(n))
  {
  }

  lemma ParseBlob(n: U32T, s: string)
    requires s == "BLOB(" + PrintNumber(n) + ")"
    ensures Parse(s) == Done(BlobType(n))
  {
    ParseWithNumber("BLOB", n, s);
    NumberRoundTrips(n, U32_LIMIT);
    BuildsBlob(n, PrintNumber(n));
  }

  lemma BuildsDecimal(p: U8, d: U8, first: string, second: string)
    requires ParseNumber(first, 256) == Some(p) && ParseNumber(second, 256) == Some(d)
    ensures Build("DECIMAL", [first, second]) == NewDecimal(p, d)
  {
  }

  lemma ParseDecimal(p: U8, d: U8, first: string, second: string, args: string, s: string)
    requires first == PrintNumber(p) && second == PrintNumber(d)
    requires args == first + ", " + second && s == "DECIMAL(" + args + ")"
    ensures Parse(s) == NewDecimal(p, d)
  {
    PrintNumberReads(p);
    PrintNumberReads(d);
    NumberRoundTrips(p, 256);
    NumberRoundTrips(d, 256);
    BuildsDecimal(p, d, first, second);
    ParseTwo(first, second, args, s);
  }

  lemma ParseTwo(first: string, second: string, args: string, s: string)
    requires first != [] && AllDigits(first) && second != [] && AllDigits(second)
    requires args == first + ", " + second && s == "DECIMAL(" + args + ")"
    ensures Parse(s) == Build("DECIMAL", [first, second])
  {
    TwoArguments(first, second);
    DecimalArguments(first, second, args);
    ParseCall("DECIMAL", args, s);
  }

  lemma DecimalArguments(p: string, d: string, args: string)
    requires AllDigits(p) && AllDigits(d) && args == p + ", " + d
    ensures forall i :: 0 <= i < |args| ==> IsArgument(args[i])
  {
  }

  /** Printing and parsing gives back every type but Unknown and decimals with more digits after the
      point than in all. */
  lemma PrintedParses(t: PrimitiveDataType)
    ensures Parse(Print(t)) == Done(t) <==> Printable(t)
  {
    match t
    case Varchar(length) => ParseVarchar(length, Print(t));
    case BlobType(size) => ParseBlob(size, Print(t));
    case DecimalType(p, d) => PrintedDecimal(p, d);
    case _ => ParsePlain(t, Print(t));
  }

  lemma PrintedDecimal(p: U8, d: U8)
    ensures Parse(Print(DecimalType(p, d))) == NewDecimal(p, d)
  {
    var args := PrintNumber(p) + ", " + PrintNumber(d);
    var s := Print(DecimalType(p, d));
    assert s == "DECIMAL(" + args + ")";
    ParseDecimal(p, d, PrintNumber(p), PrintNumber(d), args, s);
  }

  lemma BuildsPlain(t: PrimitiveDataType)
    requires !t.Varchar? && !t.BlobType? && !t.DecimalType?
    ensures Build(Print(t), []) == if t.Unknown? then Failed(UnknownType("UNKNOWN")) else Done(t)
  {
  }

  lemma PlainIsName(t: PrimitiveDataType)
    requires !t.Varchar? && !t.BlobType? && !t.DecimalType?
    ensures IsName(Print(t))
  {
  }

  lemma ParsePlain(t: PrimitiveDataType, s: string)
    requires !t.Varchar? && !t.BlobType? && !t.DecimalType? && s == Print(t)
    ensures Parse(s) == Done(t) <==> !t.Unknown?
  {
    PlainIsName(t);
    ParseName(s);
    BuildsPlain(t);
  }

  /** The types whose printed form parses. */
  predicate Printable(t: PrimitiveDataType) { !t.Unknown? && (t.DecimalType? ==> t.scale <= t.precision) }

  lemma BuiltIsPrintable(name: string, args: seq<string>, o: Outcome<PrimitiveDataType, SchemaError>)
    requires o == Build(name, args)
    ensures !o.Panicked? && (o.Done? ==> Printable(o.value))
  {
  }

  /** Whatever text the parser accepts: the printed form of the type parses to the same type. */
  lemma AcceptedReprints(input: string, t: PrimitiveDataType)
    requires Parse(input) == Done(t)
    ensures Parse(Print(t)) == Done(t)
  {
    ParsedIsPrintable(input, t);
    PrintedParses(t);
  }

  lemma ParsedIsPrintable(input: string, t: PrimitiveDataType)
    requires Parse(input) == Done(t)
    ensures Printable(t)
  {
    NormalizedIsPrintable(Trim(input), Upper(Trim(input)), Done(t));
  }

  lemma NormalizedIsPrintable(input: string, normalized: string, o: Outcome<PrimitiveDataType, SchemaError>)
    requires normalized != [] && o == ParseNormalized(input, normalized) && o.Done?
    ensures Printable(o.value)
  {
    var open := Find(normalized, '(');
    if open == |normalized| {
      BuiltIsPrintable(normalized, [], o);
    } else {
      BuiltIsPrintable(Trim(normalized[..open]), Arguments(normalized[open + 1..|normalized| - 1]), o);
    }
  }

  /** Surrounding white space and letter case make no difference to what is accepted, or as what. */
  lemma SpaceAndCaseIgnored(input: string)
    ensures Parse(Trim(input)) == Parse(input)
    ensures Parse(Upper(input)).Done? <==> Parse(input).Done?
    ensures Parse(input).Done? ==> Parse(Upper(input)) == Parse(input)
  {
    TrimTrims(input);
    UpperTrims(input);
    var text := Trim(input);
    UpperTwice(text);
    if text != [] { CaseOnlyInErrors(text, Upper(text), Upper(text), Find(Upper(text), '(')); }
  }

  lemma UpperTrims(input: string)
    ensures Trim(Upper(input)) == Upper(Trim(input))
  {
    UpperTrimStart(input);
    UpperTrimEnd(TrimStart(input));
  }

  lemma CaseOnlyInErrors(text: string, other: string, normalized: string, open: nat)
    requires normalized != [] && open <= |normalized| && (open < |normalized| ==> normalized[open] == '(')
    ensures ParseAt(text, normalized, open).Done? <==> ParseAt(other, normalized, open).Done?
    ensures ParseAt(text, normalized, open).Done? ==>
              ParseAt(text, normalized, open) == ParseAt(other, normalized, open)
  {
  }

  lemma UpperTwice(s: string)
    ensures Upper(Upper(s)) == Upper(s)
  {
    forall i | 0 <= i < |s| ensures Upper(Upper(s))[i] == Upper(s)[i] {
      UpperKeepsSpace(s[i]);
    }
  }
}
