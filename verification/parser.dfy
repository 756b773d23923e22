/** The recursive-descent parser: `parse` and `parse_internal`, without a parser callback. */
module Parser {
  import opened Results
  import opened Json
  import opened Lexer

  /** A parsed value, and the token read after it. */
  datatype Parsed = Parsed(value: Value, next: Scanned)

  /** What holds of every scanned token. */
  predicate IsScanned(text: string, at: Scanned) {
    && at.start < at.cursor
    && (at.token != EndOfInput ==> at.cursor <= |text|)
    && (at.token == ValueString ==> at.cursor - at.start >= 2)
  }

  /** How much text is left: every token but the end of input uses some. */
  function Left(text: string, at: Scanned): nat {
    if at.cursor <= |text| then |text| - at.cursor + 1 else 0
  }

  /** `parse_internal` when `at` is the last token. */
  function ParseValue(lib: Libc, text: string, at: Scanned): (r: Result<Parsed>)
    requires IsScanned(text, at)
    ensures r.Ok? ==> Left(text, r.value.next) < Left(text, at) && IsScanned(text, r.value.next)
    decreases Left(text, at), 0
  {
    var next := Scan(text, at.cursor);
    match at.token
    case BeginObject =>
      if next.token == EndObject then Ok(Parsed(Object(map[]), Scan(text, next.cursor)))
      else if next.token == ValueSeparator then Err(InvalidArgument)
      else ParseMembers(lib, text, next, map[])
    case BeginArray =>
      if next.token == EndArray then Ok(Parsed(Array([]), Scan(text, next.cursor)))
      else if next.token == ValueSeparator then Err(InvalidArgument)
      else ParseElements(lib, text, next, [])
    case LiteralNull => Ok(Parsed(Null, next))
    case LiteralTrue => Ok(Parsed(Boolean(true), next))
    case LiteralFalse => Ok(Parsed(Boolean(false), next))
    case ValueString =>
      var s :- StringValue(text, at.start + 1, at.cursor - 1);
      Ok(Parsed(String(s), next))
    case ValueNumber => Ok(Parsed(NumberValue(lib, text[at.start..at.cursor]), next))
    case _ => Err(InvalidArgument)
  }

  /** The loop over key-value pairs, one round for the pair at `at`. */
  function ParseMembers(lib: Libc, text: string, at: Scanned, members: map<string, Value>): (r: Result<Parsed>)
    requires IsScanned(text, at)
    ensures r.Ok? ==> Left(text, r.value.next) < Left(text, at) && IsScanned(text, r.value.next)
    decreases Left(text, at), 1
  {
    var first := if at.token == ValueSeparator then Scan(text, at.cursor) else at;
    if first.token != ValueString then Err(InvalidArgument)
    else
      var key :- StringValue(text, first.start + 1, first.cursor - 1);
      var separator := Scan(text, first.cursor);
      if separator.token != NameSeparator then Err(InvalidArgument)
      else
        var value :- ParseValue(lib, text, Scan(text, separator.cursor));
        var members' := members[key := value.value];
        if value.next.token == ValueSeparator then ParseMembers(lib, text, value.next, members')
        else if value.next.token != EndObject then Err(InvalidArgument)
        else Ok(Parsed(Object(members'), Scan(text, value.next.cursor)))
  }

  /** The loop over array elements, one round for the element at `at`. */
  function ParseElements(lib: Libc, text: string, at: Scanned, elems: seq<Value>): (r: Result<Parsed>)
    requires IsScanned(text, at)
    ensures r.Ok? ==> Left(text, r.value.next) < Left(text, at) && IsScanned(text, r.value.next)
    decreases Left(text, at), 1
  {
    var first := if at.token == ValueSeparator then Scan(text, at.cursor) else at;
    var value :- ParseValue(lib, text, first);
    var elems' := elems + [value.value];
    if value.next.token == ValueSeparator then ParseElements(lib, text, value.next, elems')
    else if value.next.token != EndArray then Err(InvalidArgument)
    else Ok(Parsed(Array(elems'), Scan(text, value.next.cursor)))
  }

  function Parse(lib: Libc, text: string): Result<Value> {
    var parsed :- ParseValue(lib, text, Scan(text, 0));
    if parsed.next.token == EndOfInput then Ok(parsed.value) else Err(InvalidArgument)
  }

  class JsonParser {
    const scanner: Scanner
    var lastToken: Token

    /** A parser over a text, before the first token is read. */
    constructor (text: string, lib: Libc)
      ensures scanner.text == text && scanner.lib == lib && scanner.cursor == 0 && fresh(scanner)
    {
      scanner := new Scanner(text, lib);
      lastToken := ParseError;
    }

    ghost function Last(): Scanned
      reads this, scanner
    {
      Scanned(lastToken, scanner.start, scanner.cursor)
    }

    method GetToken()
      modifies this, scanner
      ensures Last() == Scan(scanner.text, old(scanner.cursor))
    {
      lastToken := scanner.Next();
    }

    /** Did parsing from `at` give `r` and leave the parser at the token after the value? */
    ghost predicate Gave(expected: Result<Parsed>, r: Result<Value>)
      reads this, scanner
    {
      match expected
      case Ok(p) => r == Ok(p.value) && Last() == p.next
      case Err(e) => r == Err(e)
    }

    method ParseInternal() returns (r: Result<Value>)
      requires IsScanned(scanner.text, Last())
      modifies this, scanner
      ensures Gave(ParseValue(scanner.lib, scanner.text, old(Last())), r)
      decreases Left(scanner.text, Last()), 1
    {
      match lastToken
      case BeginObject =>
        GetToken();
        if lastToken == EndObject {
          GetToken();
          return Ok(Object(map[]));
        }
        if lastToken == ValueSeparator {
          return Err(InvalidArgument);
        }
        r := ParsePairs();
      case BeginArray =>
        GetToken();
        if lastToken == EndArray {
          GetToken();
          return Ok(Array([]));
        }
        if lastToken == ValueSeparator {
          return Err(InvalidArgument);
        }
        r := ParseItems();
      case LiteralNull =>
        GetToken();
        r := Ok(Null);
      case LiteralTrue =>
        GetToken();
        r := Ok(Boolean(true));
      case LiteralFalse =>
        GetToken();
        r := Ok(Boolean(false));
      case ValueString =>
        var s := scanner.GetString();
        if s.Err? {
          return Err(s.error);
        }
        GetToken();
        r := Ok(String(s.value));
      case ValueNumber =>
        var n := scanner.GetNumber();
        GetToken();
        r := Ok(n);
      case _ =>
        r := Err(InvalidArgument);
    }

    /** The do-while loop over key-value pairs. */
    method ParsePairs() returns (r: Result<Value>)
      requires IsScanned(scanner.text, Last())
      modifies this, scanner
      ensures Gave(ParseMembers(scanner.lib, scanner.text, old(Last()), map[]), r)
      decreases Left(scanner.text, Last()), 2
    {
      hide ParseValue, StringValue, Scan;
      var result: map<string, Value> := map[];
      while true
        invariant IsScanned(scanner.text, Last()) && Left(scanner.text, Last()) <= Left(scanner.text, old(Last()))
        invariant ParseMembers(scanner.lib, scanner.text, Last(), result)
          == ParseMembers(scanner.lib, scanner.text, old(Last()), map[])
        decreases Left(scanner.text, Last())
      {
        if lastToken == ValueSeparator {
          GetToken();
        }
        if lastToken != ValueString {
          return Err(InvalidArgument);
        }
        var key := scanner.GetString();
        if key.Err? {
          return Err(key.error);
        }
        GetToken();
        if lastToken != NameSeparator {
          return Err(InvalidArgument);
        }
        GetToken();
        var value := ParseInternal();
        if value.Err? {
          return value;
        }
        result := result[key.value := value.value];
        if lastToken != ValueSeparator {
          break;
        }
      }
      if lastToken != EndObject {
        return Err(InvalidArgument);
      }
      GetToken();
      return Ok(Object(result));
    }

    /** The do-while loop over array elements. */
    method ParseItems() returns (r: Result<Value>)
      requires IsScanned(scanner.text, Last())
      modifies this, scanner
      ensures Gave(ParseElements(scanner.lib, scanner.text, old(Last()), []), r)
      decreases Left(scanner.text, Last()), 2
    {
      hide ParseValue, Scan;
      var result: seq<Value> := [];
      while true
        invariant IsScanned(scanner.text, Last()) && Left(scanner.text, Last()) <= Left(scanner.text, old(Last()))
        invariant ParseElements(scanner.lib, scanner.text, Last(), result)
          == ParseElements(scanner.lib, scanner.text, old(Last()), [])
        decreases Left(scanner.text, Last())
      {
        if lastToken == ValueSeparator {
          GetToken();
        }
        var value := ParseInternal();
        if value.Err? {
          return value;
        }
        result := result + [value.value];
        if lastToken != ValueSeparator {
          break;
        }
      }
      if lastToken != EndArray {
        return Err(InvalidArgument);
      }
      GetToken();
      return Ok(Array(result));
    }

    /** `parse`, on a fresh parser. */
    method Run() returns (r: Result<Value>)
      requires scanner.cursor == 0
      modifies this, scanner
      ensures r == Parse(scanner.lib, scanner.text)
    {
      GetToken();
      r := ParseInternal();
      if r.Ok? && lastToken != EndOfInput {
        r := Err(InvalidArgument);
      }
    }
  }
}
