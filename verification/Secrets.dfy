/** The secrets file: quoting of values, and writing and reading KEY=value lines. */
module Secrets {
  import opened Wrappers
  import opened Text

  // ----- one value -----

  const SPECIAL: set<char> := {'$', '`', '"', '\\'}

  predicate Encodable(value: string) {
    '\0' !in value && '\r' !in value && '\n' !in value
  }

  function Escape(value: string): string {
    if value == [] then []
    else (if value[0] in SPECIAL then ['\\', value[0]] else [value[0]]) + Escape(value[1..])
  }

  function Quote(text: string): string {
    ['"'] + text + ['"']
  }

  function EncodeEnvironmentValue(value: string): Result<string, string> {
    if !Encodable(value) then Err("environment values cannot contain line breaks or null bytes")
    else if value == "" then Ok("")
    else Ok(Quote(Escape(value)))
  }

  /** The meaning of a double-quoted body: a backslash before a special character is dropped. */
  function Unescape(body: string): string {
    if body == [] then []
    else if body[0] == '\\' && |body| > 1 && body[1] in SPECIAL then [body[1]] + Unescape(body[2..])
    else [body[0]] + Unescape(body[1..])
  }

  function Decoded(raw: string): Result<string, string> {
    if raw == "" then Ok("")
    else if raw[0] != '\'' && raw[0] != '"' then Ok(raw)
    else if |raw| < 2 || raw[|raw| - 1] != raw[0] then Err("unterminated quoted value")
    else if raw[0] == '\'' then Ok(raw[1..|raw| - 1])
    else Ok(Unescape(raw[1..|raw| - 1]))
  }

  predicate EscapedAt(body: string, i: nat) {
    i + 1 < |body| && body[i] == '\\' && body[i + 1] in SPECIAL
  }

  lemma UnescapeStep(body: string, i: nat, decoded: string)
    requires i < |body|
    ensures decoded + Unescape(body[i..]) ==
            if EscapedAt(body, i) then decoded + [body[i + 1]] + Unescape(body[i + 2..])
            else decoded + [body[i]] + Unescape(body[i + 1..])
  {
    var rest := body[i..];
    assert rest[1..] == body[i + 1..];
    if EscapedAt(body, i) {
      assert rest[2..] == body[i + 2..];
    }
  }

  /** The loop over the body of a double-quoted value. */
  method DecodeBody(body: string) returns (decoded: string)
    ensures decoded == Unescape(body)
  {
    decoded := "";
    var index := 0;
    while index < |body|
      invariant 0 <= index <= |body|
      invariant decoded + Unescape(body[index..]) == Unescape(body)
    {
      UnescapeStep(body, index, decoded);
      var character := body[index];
      if character != '\\' {
        decoded := decoded + [character];
        index := index + 1;
        continue;
      }
      if index + 1 >= |body| {
        decoded := decoded + ['\\'];
        index := index + 1;
        continue;
      }
      var next := body[index + 1];
      if next in SPECIAL {
        decoded := decoded + [next];
        index := index + 2;
        continue;
      }
      decoded := decoded + ['\\'];
      index := index + 1;
    }
    assert body[index..] == "" && decoded + "" == decoded;
  }

  method DecodeEnvironmentValue(raw: string) returns (r: Result<string, string>)
    ensures r == Decoded(raw)
  {
    if raw == "" {
      return Ok("");
    }
    var quote := raw[0];
    if quote != '\'' && quote != '"' {
      return Ok(raw);
    }
    if |raw| < 2 || raw[|raw| - 1] != quote {
      return Err("unterminated quoted value");
    }
    var body := raw[1..|raw| - 1];
    if quote == '\'' {
      return Ok(body);
    }
    var decoded := DecodeBody(body);
    return Ok(decoded);
  }

  lemma {:induction false} UnescapeEscape(value: string)
    ensures Unescape(Escape(value)) == value
  {
    if value != [] {
      UnescapeEscape(value[1..]);
      var rest := Escape(value[1..]);
      if value[0] in SPECIAL {
        assert Escape(value)[2..] == rest;
      } else {
        assert Escape(value)[1..] == rest;
      }
    }
  }

  lemma {:induction false} EscapeKeepsLines(value: string)
    requires Encodable(value)
    ensures '\n' !in Escape(value) && '\r' !in Escape(value)
  {
    if value != [] {
      EscapeKeepsLines(value[1..]);
    }
  }

  lemma QuotedIsTight(text: string, quoted: string)
    requires quoted == Quote(text)
    ensures Tight(quoted) && Trim(quoted) == quoted
    ensures |quoted| >= 2 && quoted[0] == quoted[|quoted| - 1] == '"' && quoted[1..|quoted| - 1] == text
  {
    VisibleIsNoSpace('"');
    TrimTight(quoted);
  }

  lemma DecodeQuoted(text: string)
    ensures Decoded(Quote(text)) == Ok(Unescape(text))
  {
    QuotedIsTight(text, Quote(text));
  }

  /** Decoding the trimmed encoding of any encodable value gives the value back. */
  lemma DecodeEncode(value: string, encoded: string)
    requires EncodeEnvironmentValue(value) == Ok(encoded)
    ensures Decoded(Trim(encoded)) == Ok(value)
    ensures Trim(encoded) == encoded
    ensures '\n' !in encoded && '\r' !in encoded
  {
    if value == "" {
      TrimTight("");
    } else {
      QuotedIsTight(Escape(value), encoded);
      DecodeQuoted(Escape(value));
      UnescapeEscape(value);
      EscapeKeepsLines(value);
    }
  }

  lemma {:induction false} EscapingAddsNoLineFeed(value: string)
    requires '\n' !in value
    ensures '\n' !in Escape(value)
  {
    if value != [] {
      EscapingAddsNoLineFeed(value[1..]);
    }
  }

  lemma {:induction false} UnescapingAddsNoLineFeed(body: string)
    requires '\n' !in body
    ensures '\n' !in Unescape(body)
    decreases |body|
  {
    if body != [] {
      UnescapingAddsNoLineFeed(body[1..]);
      if body[0] == '\\' && |body| > 1 && body[1] in SPECIAL {
        UnescapingAddsNoLineFeed(body[2..]);
      }
    }
  }

  /** A value can stand on one line of the file exactly when it has no line feed: the encoder must refuse those
      that have one, and what it refuses beyond them, NUL and CR, could be written. */
  lemma OneLineCarries(value: string)
    ensures (exists raw :: '\n' !in raw && Decoded(raw) == Ok(value)) <==> '\n' !in value
    ensures EncodeEnvironmentValue(value).Ok? ==> '\n' !in value
  {
    if raw :| '\n' !in raw && Decoded(raw) == Ok(value) {
      if |raw| >= 2 {
        UnescapingAddsNoLineFeed(raw[1..|raw| - 1]);
      }
    }
    if '\n' !in value {
      EscapingAddsNoLineFeed(value);
      UnescapeEscape(value);
      DecodeQuoted(Escape(value));
      assert '\n' !in Quote(Escape(value));
    }
  }

  lemma EncodesExactly(value: string)
    ensures EncodeEnvironmentValue(value).Ok? <==> Encodable(value)
  {}

  // ----- the file -----

  /** The text between line feeds; an empty last line is not a line. */
  function Lines(text: string): seq<string>
    decreases |text|
  {
    if text == "" then []
    else
      var i := IndexOf(text, '\n');
      [text[..i]] + (if i < |text| then Lines(text[i + 1..]) else [])
  }

  /** The bytes of a character in UTF-8. */
  function CharBytes(c: char): nat {
    if c < '\U{80}' then 1 else if c < '\U{800}' then 2 else if c < '\U{10000}' then 3 else 4
  }

  /** The bytes of a text in UTF-8. */
  function ByteLength(text: string): nat {
    if text == "" then 0 else ByteLength(text[..|text| - 1]) + CharBytes(text[|text| - 1])
  }

  /** bufio.Scanner gives up on a line that does not fit into its buffer of 64 KiB together with its line feed. */
  const MAXIMUM_LINE_BYTES := 65535

  const TOO_LONG := "token too long"

  /** The scanner drops a final carriage return from a line. */
  function WithoutReturn(line: string): string {
    if line != "" && line[|line| - 1] == '\r' then line[..|line| - 1] else line
  }

  datatype Entry = Skip | Set(key: string, value: string) | Bad(reason: string)

  function ParseValue(key: string, raw: string): Entry {
    match Decoded(raw)
    case Err(reason) => Bad(reason)
    case Ok(value) => Set(key, value)
  }

  function ParsePair(key: string, raw: string, supported: set<string>): Entry {
    if key !in supported then Skip else ParseValue(key, raw)
  }

  function ParseTrimmed(line: string, supported: set<string>): Entry {
    if line == "" || line[0] == '#' then Skip
    else
      var i := IndexOf(line, '=');
      if i == |line| then Bad("expected KEY=value")
      else ParsePair(Trim(line[..i]), Trim(line[i + 1..]), supported)
  }

  /** What one line of the file says; a line that is too long ends the scan. */
  function ParseLine(line: string, supported: set<string>): Entry {
    if ByteLength(line) > MAXIMUM_LINE_BYTES then Bad(TOO_LONG) else ParseTrimmed(Trim(WithoutReturn(line)), supported)
  }

  /** The values of the lines in turn, added to `values`; the first bad or overlong line ends the reading. */
  function ParseLines(lines: seq<string>, supported: set<string>, values: map<string, string>)
      : Result<map<string, string>, string>
    decreases lines
  {
    if lines == [] then Ok(values)
    else
      match ParseLine(lines[0], supported)
      case Skip => ParseLines(lines[1..], supported, values)
      case Set(key, value) => ParseLines(lines[1..], supported, values[key := value])
      case Bad(reason) => Err(reason)
  }

  function KeySet(keys: seq<string>): set<string> {
    set key | key in keys
  }

  method ReadPair(key: string, raw: string, supported: set<string>) returns (entry: Entry)
    ensures entry == ParsePair(key, raw, supported)
  {
    if key !in supported {
      return Skip;
    }
    var value := DecodeEnvironmentValue(raw);
    match value {
      case Err(reason) => return Bad(reason);
      case Ok(decoded) => return Set(key, decoded);
    }
  }

  method ReadLine(line: string, supported: set<string>) returns (entry: Entry)
    ensures entry == ParseTrimmed(line, supported)
  {
    if line == "" || line[0] == '#' {
      return Skip;
    }
    var i := IndexOf(line, '=');
    if i == |line| {
      return Bad("expected KEY=value");
    }
    var key, raw := Trim(line[..i]), Trim(line[i + 1..]);
    entry := ReadPair(key, raw, supported);
  }

  /** readSecrets on the text of a regular, private file. */
  method ReadSecrets(text: string, supportedKeys: seq<string>) returns (r: Result<map<string, string>, string>)
    ensures r == ParseLines(Lines(text), KeySet(supportedKeys), map[])
  {
    var lines := Lines(text);
    var supported := KeySet(supportedKeys);
    var result: map<string, string> := map[];
    for n := 0 to |lines|
      invariant ParseLines(lines[n..], supported, result) == ParseLines(lines, supported, map[])
    {
      assert lines[n..][1..] == lines[n + 1..];
      if ByteLength(lines[n]) > MAXIMUM_LINE_BYTES {
        return Err(TOO_LONG);
      }
      var entry := ReadLine(Trim(WithoutReturn(lines[n])), supported);
      match entry {
        case Skip =>
        case Set(key, value) => result := result[key := value];
        case Bad(reason) => return Err(reason);
      }
    }
    return Ok(result);
  }

  /** The text that writeSecretsFile writes after `text` for the keys that are present. */
  function Contents(keys: seq<string>, values: map<string, string>, text: string): Result<string, string>
    decreases keys
  {
    if keys == [] then Ok(text)
    else if keys[0] !in values then Contents(keys[1..], values, text)
    else
      match EncodeEnvironmentValue(values[keys[0]])
      case Err(reason) => Err(reason)
      case Ok(value) => Contents(keys[1..], values, text + FileLine(keys[0], value))
  }

  function FileLine(key: string, value: string): string {
    key + ['='] + value + ['\n']
  }

  /** writeSecretsFile up to the bytes that it stores. */
  method WriteSecrets(keys: seq<string>, values: map<string, string>) returns (r: Result<string, string>)
    ensures r == Contents(keys, values, "")
  {
    var contents := "";
    for n := 0 to |keys|
      invariant Contents(keys[n..], values, contents) == Contents(keys, values, "")
    {
      assert keys[n..][1..] == keys[n + 1..];
      var key := keys[n];
      if key !in values {
        continue;
      }
      var value := EncodeEnvironmentValue(values[key]);
      if value.Err? {
        return Err(value.error);
      }
      contents := contents + FileLine(key, value.value);
    }
    return Ok(contents);
  }

  // ----- reading what was written -----

  /** What the supported keys are like: text that survives trimming, cutting and the comment rule. */
  predicate GoodKey(key: string) {
    && key != "" && Tight(key) && key[0] != '#'
    && '=' !in key && '\n' !in key
  }

  lemma LinesFirst(line: string, rest: string)
    requires '\n' !in line
    ensures Lines(line + ['\n'] + rest) == [line] + Lines(rest)
  {
    IndexOfFirst(line, '\n', rest);
    var text := line + ['\n'] + rest;
    assert text[..|line|] == line && text[|line| + 1..] == rest;
  }

  /** The line of a value, without its line feed. */
  function LineOf(key: string, value: string): string {
    key + ['='] + (if value == "" then "" else Quote(Escape(value)))
  }

  /** The scanner takes the line of a value. */
  predicate LineFits(key: string, value: string) {
    ByteLength(LineOf(key, value)) <= MAXIMUM_LINE_BYTES
  }

  lemma LineIsTight(key: string, encoded: string, line: string)
    requires GoodKey(key) && line == key + ['='] + encoded
    requires encoded == "" || encoded[|encoded| - 1] == '"'
    ensures Tight(line)
  {
    VisibleIsNoSpace('"');
    VisibleIsNoSpace('=');
    assert line[0] == key[0];
    assert line[|line| - 1] == if encoded == "" then '=' else encoded[|encoded| - 1];
  }

  lemma LineCut(key: string, encoded: string, line: string)
    requires GoodKey(key) && line == key + ['='] + encoded
    ensures line != "" && line[0] != '#'
    ensures IndexOf(line, '=') == |key| && line[..|key|] == key && line[|key| + 1..] == encoded
  {
    IndexOfFirst(key, '=', encoded);
  }

  lemma PairParses(key: string, raw: string, value: string, supported: set<string>)
    requires key in supported && Decoded(raw) == Ok(value)
    ensures ParsePair(key, raw, supported) == Set(key, value)
  {
  }

  lemma CutLineParses(line: string, key: string, encoded: string, value: string, supported: set<string>)
    requires line != "" && line[0] != '#' && Trim(line) == line
    requires IndexOf(line, '=') == |key| < |line| && line[..|key|] == key && line[|key| + 1..] == encoded
    requires Trim(key) == key && key in supported && Decoded(Trim(encoded)) == Ok(value)
    ensures ParseTrimmed(line, supported) == Set(key, value)
  {
    PairParses(key, Trim(encoded), value, supported);
  }

  lemma NoReturnAtEnd(key: string, encoded: string, line: string)
    requires line == key + ['='] + encoded && (encoded == "" || encoded[|encoded| - 1] == '"')
    ensures WithoutReturn(line) == line
  {
    assert line[|line| - 1] == if encoded == "" then '=' else encoded[|encoded| - 1];
  }

  /** One written line is read back as its key and value exactly when it fits. */
  lemma LineRoundTrip(key: string, value: string, supported: set<string>)
    requires GoodKey(key) && key in supported && Encodable(value)
    ensures ParseLine(LineOf(key, value), supported) == if LineFits(key, value) then Set(key, value) else Bad(TOO_LONG)
  {
    var encoded, line := EncodeEnvironmentValue(value).value, LineOf(key, value);
    DecodeEncode(value, encoded);
    LineIsTight(key, encoded, line);
    NoReturnAtEnd(key, encoded, line);
    TrimTight(line);
    TrimTight(key);
    LineCut(key, encoded, line);
    CutLineParses(line, key, encoded, value, supported);
  }

  predicate AllEncodable(keys: seq<string>, values: map<string, string>) {
    forall key | key in keys && key in values :: Encodable(values[key])
  }

  function Written(keys: seq<string>, values: map<string, string>): string
    requires AllEncodable(keys, values)
    decreases keys
  {
    if keys == [] then ""
    else
      var rest := Written(keys[1..], values);
      if keys[0] in values then FileLine(keys[0], EncodeEnvironmentValue(values[keys[0]]).value) + rest else rest
  }

  lemma {:induction false} ContentsWritten(keys: seq<string>, values: map<string, string>, text: string)
    ensures if AllEncodable(keys, values) then Contents(keys, values, text) == Ok(text + Written(keys, values))
            else Contents(keys, values, text).Err?
    decreases keys
  {
    if keys == [] {
      assert text + "" == text;
    } else {
      assert keys == [keys[0]] + keys[1..];
      if keys[0] in values {
        EncodesExactly(values[keys[0]]);
        if Encodable(values[keys[0]]) {
          var line := FileLine(keys[0], EncodeEnvironmentValue(values[keys[0]]).value);
          ContentsWritten(keys[1..], values, text + line);
          if AllEncodable(keys[1..], values) {
            assert text + line + Written(keys[1..], values) == text + (line + Written(keys[1..], values));
          }
        }
      } else {
        ContentsWritten(keys[1..], values, text);
      }
    }
  }

  /** The first written line, taken off the text. */
  lemma FirstLine(key: string, value: string, rest: string, supported: set<string>, values: map<string, string>)
    requires GoodKey(key) && key in supported && Encodable(value)
    ensures
      var text := FileLine(key, EncodeEnvironmentValue(value).value) + rest;
      ParseLines(Lines(text), supported, values)
      == if LineFits(key, value) then ParseLines(Lines(rest), supported, values[key := value]) else Err(TOO_LONG)
  {
    var encoded, line := EncodeEnvironmentValue(value).value, LineOf(key, value);
    DecodeEncode(value, encoded);
    assert FileLine(key, encoded) + rest == line + ['\n'] + rest;
    LinesFirst(line, rest);
    LineRoundTrip(key, value, supported);
    assert ([line] + Lines(rest))[1..] == Lines(rest);
  }

  /** The values of the listed keys. */
  function Kept(keys: seq<string>, values: map<string, string>): map<string, string> {
    map key | key in keys && key in values :: values[key]
  }

  lemma KeptFirst(keys: seq<string>, values: map<string, string>, read: map<string, string>)
    requires keys != []
    ensures read + Kept(keys, values) ==
            (if keys[0] in values then read[keys[0] := values[keys[0]]] else read) + Kept(keys[1..], values)
  {
    assert keys == [keys[0]] + keys[1..];
  }

  /** Every line that is written fits. */
  predicate AllFit(keys: seq<string>, values: map<string, string>) {
    forall key | key in keys && key in values :: LineFits(key, values[key])
  }

  lemma {:induction false} ReadsBack(keys: seq<string>, supported: set<string>, values: map<string, string>,
      read: map<string, string>)
    requires AllEncodable(keys, values)
    requires forall key | key in keys :: GoodKey(key) && key in supported
    ensures ParseLines(Lines(Written(keys, values)), supported, read)
            == if AllFit(keys, values) then Ok(read + Kept(keys, values)) else Err(TOO_LONG)
    decreases keys
  {
    if keys == [] {
      assert read + Kept(keys, values) == read;
    } else {
      KeptFirst(keys, values, read);
      assert keys == [keys[0]] + keys[1..];
      if keys[0] in values {
        FirstLine(keys[0], values[keys[0]], Written(keys[1..], values), supported, read);
        ReadsBack(keys[1..], supported, values, read[keys[0] := values[keys[0]]]);
      } else {
        ReadsBack(keys[1..], supported, values, read);
      }
    }
  }

  /** What reading makes of a written file. */
  function ReadAgain(keys: seq<string>, text: string): Result<map<string, string>, string> {
    ParseLines(Lines(text), KeySet(keys), map[])
  }

  lemma WrittenReads(keys: seq<string>, values: map<string, string>)
    requires AllEncodable(keys, values) && forall key | key in keys :: GoodKey(key)
    ensures ReadAgain(keys, Written(keys, values)) == if AllFit(keys, values) then Ok(Kept(keys, values))
        else Err(TOO_LONG)
  {
    ReadsBack(keys, KeySet(keys), values, map[]);
    assert map[] + Kept(keys, values) == Kept(keys, values);
  }

  /**
   Writing fails exactly when some present value cannot be encoded.  What is written gives exactly the values of
   the supported keys when it is read, if and only if every line of it fits; otherwise reading fails.
   */
  lemma FileRoundTrip(keys: seq<string>, values: map<string, string>)
    requires forall key | key in keys :: GoodKey(key)
    ensures Contents(keys, values, "").Ok? <==> AllEncodable(keys, values)
    ensures AllEncodable(keys, values) ==>
      ReadAgain(keys, Contents(keys, values, "").value) == if AllFit(keys, values) then Ok(Kept(keys, values))
          else Err(TOO_LONG)
  {
    ContentsWritten(keys, values, "");
    if AllEncodable(keys, values) {
      WrittenReads(keys, values);
      assert "" + Written(keys, values) == Written(keys, values);
    }
  }

  // ----- reading what was written by hand -----

  predicate IsQuote(c: char) {
    c == '\'' || c == '"'
  }

  /**
   A value without a quote in front stands for itself; single quotes keep everything
   between them, backslashes included; double quotes keep a text without backslashes; and
   only a quote that is not closed is an error.
   */
  lemma HandWrittenValue(text: string)
    ensures text == "" || !IsQuote(text[0]) ==> Decoded(text) == Ok(text)
    ensures Decoded(['\''] + text + ['\'']) == Ok(text)
    ensures '\\' !in text ==> Decoded(Quote(text)) == Ok(text)
    ensures Decoded(text).Err? <==> text != "" && IsQuote(text[0]) && (|text| == 1 || text[|text| - 1] != text[0])
  {
    var single := ['\''] + text + ['\''];
    assert single[1..|single| - 1] == text;
    DecodeQuoted(text);
    if '\\' !in text {
      PlainBody(text);
    }
  }

  lemma {:induction false} PlainBody(text: string)
    requires '\\' !in text
    ensures Unescape(text) == text
  {
    if text != "" {
      PlainBody(text[1..]);
      assert text == [text[0]] + text[1..];
    }
  }

  /** In a double-quoted body, a backslash is kept unless a special character follows. */
  lemma {:induction false} BackslashInBody(before: string, c: char, after: string)
    requires '\\' !in before
    ensures Unescape(before + (['\\', c] + after))
         == before + (if c in SPECIAL then [c] + Unescape(after) else ['\\'] + Unescape([c] + after))
    decreases before
  {
    var tail := ['\\', c] + after;
    if before == "" {
      EscapedFirst(c, after);
      assert before + tail == tail;
    } else {
      BackslashInBody(before[1..], c, after);
      PlainFirst(before[0], before[1..] + tail);
      assert before + tail == [before[0]] + (before[1..] + tail);
    }
  }

  lemma EscapedFirst(c: char, after: string)
    ensures Unescape(['\\', c] + after)
         == if c in SPECIAL then [c] + Unescape(after) else ['\\'] + Unescape([c] + after)
  {
    var body := ['\\', c] + after;
    assert body[1..] == [c] + after && body[2..] == after;
  }

  lemma PlainFirst(c: char, rest: string)
    requires c != '\\'
    ensures Unescape([c] + rest) == [c] + Unescape(rest)
  {
    assert ([c] + rest)[1..] == rest;
  }

  /** Spaces around a key, its equals sign and its value do not matter; unknown keys are skipped whatever follows. */
  lemma HandWrittenLine(line: string, key: string, raw: string, supported: set<string>)
    requires ByteLength(line) <= MAXIMUM_LINE_BYTES && '=' !in key && key != "" && key[0] != '#'
    requires Trim(WithoutReturn(line)) == key + ['='] + raw
    ensures ParseLine(line, supported) ==
            if Trim(key) !in supported then Skip
            else if Decoded(Trim(raw)).Ok? then Set(Trim(key), Decoded(Trim(raw)).value)
            else Bad("unterminated quoted value")
  {
    TrimmedPair(key, raw, supported);
  }

  lemma TrimmedPair(key: string, raw: string, supported: set<string>)
    requires '=' !in key && key != "" && key[0] != '#'
    ensures ParseTrimmed(key + ['='] + raw, supported) == ParsePair(Trim(key), Trim(raw), supported)
  {
    var trimmed := key + ['='] + raw;
    IndexOfFirst(key, '=', raw);
    assert trimmed[0] == key[0] && trimmed[..|key|] == key && trimmed[|key| + 1..] == raw;
  }

  /** Blank lines and comments are skipped, and any other line needs an equals sign. */
  lemma LineWithoutPair(line: string, supported: set<string>)
    requires ByteLength(line) <= MAXIMUM_LINE_BYTES
    requires var text := Trim(WithoutReturn(line)); text == "" || text[0] == '#' || '=' !in text
    ensures
      var text := Trim(WithoutReturn(line));
      ParseLine(line, supported) == if text == "" || text[0] == '#' then Skip else Bad("expected KEY=value")
  {
  }

  predicate Sets(lines: seq<string>, supported: set<string>, i: int, key: string) {
    0 <= i < |lines| && ParseLine(lines[i], supported).Set? && ParseLine(lines[i], supported).key == key
  }

  /** Line `i` is the last one that sets `key`. */
  ghost predicate SetsLast(lines: seq<string>, supported: set<string>, i: int, key: string) {
    Sets(lines, supported, i, key) && forall j | i < j < |lines| :: !Sets(lines, supported, j, key)
  }

  /** What a file says about a key: the value of the last line that sets it, and otherwise nothing. */
  ghost predicate SaysOf(lines: seq<string>, supported: set<string>, values: map<string, string>, key: string) {
    if key in values
    then exists i :: SetsLast(lines, supported, i, key) && values[key] == ParseLine(lines[i], supported).value
    else forall i :: !Sets(lines, supported, i, key)
  }

  lemma {:induction false} OneMoreLine(lines: seq<string>, line: string, supported: set<string>,
      values: map<string, string>)
    ensures ParseLines(lines + [line], supported, values) ==
            match ParseLines(lines, supported, values)
            case Err(reason) => Err(reason)
            case Ok(read) => ParseLines([line], supported, read)
    decreases lines
  {
    if lines == [] {
      assert lines + [line] == [line];
    } else {
      assert (lines + [line])[1..] == lines[1..] + [line];
      var entry := ParseLine(lines[0], supported);
      OneMoreLine(lines[1..], line, supported, if entry.Set? then values[entry.key := entry.value] else values);
    }
  }

  lemma OneLineSays(line: string, supported: set<string>, values: map<string, string>)
    ensures ParseLines([line], supported, values) ==
            match ParseLine(line, supported)
            case Skip => Ok(values)
            case Set(key, value) => Ok(values[key := value])
            case Bad(reason) => Err(reason)
  {
    assert [line][1..] == [];
  }

  /**
   Reading succeeds exactly when no line is bad, and then holds for each key the value of
   the last line that sets it, and nothing else.
   */
  lemma {:induction false} LinesSay(lines: seq<string>, supported: set<string>)
    ensures ParseLines(lines, supported, map[]).Ok? <==> forall i | 0 <= i < |lines| ::
              !ParseLine(lines[i], supported).Bad?
    ensures ParseLines(lines, supported, map[]).Ok? ==>
      forall key :: SaysOf(lines, supported, ParseLines(lines, supported, map[]).value, key)
  {
    if lines != [] {
      var init, line := lines[..|lines| - 1], lines[|lines| - 1];
      LinesSay(init, supported);
      assert lines == init + [line];
      OneMoreLine(init, line, supported, map[]);
      if ParseLines(init, supported, map[]).Ok? {
        OneLineSays(line, supported, ParseLines(init, supported, map[]).value);
        if !ParseLine(line, supported).Bad? {
          forall key ensures SaysOf(lines, supported, ParseLines(lines, supported, map[]).value, key) {
            LastLineSays(init, line, supported, ParseLines(init, supported, map[]).value, key);
          }
        }
      }
    }
  }

  lemma LastLineSays(init: seq<string>, line: string, supported: set<string>, read: map<string, string>, key: string)
    requires SaysOf(init, supported, read, key) && !ParseLine(line, supported).Bad?
    ensures
      var entry := ParseLine(line, supported);
      SaysOf(init + [line], supported, if entry.Set? then read[entry.key := entry.value] else read, key)
  {
    var lines, n := init + [line], |init|;
    forall i
      ensures Sets(lines, supported, i, key) <==>
              Sets(init, supported, i, key) || (i == n && Sets(lines, supported, n, key))
    {
    }
    if Sets(lines, supported, n, key) {
      assert SetsLast(lines, supported, n, key);
    } else if key in read {
      var i :| SetsLast(init, supported, i, key) && read[key] == ParseLine(init[i], supported).value;
      assert SetsLast(lines, supported, i, key);
    }
  }

  // ----- how long a value may be -----

  lemma {:induction false} ByteLengthOfPair(a: string, b: string)
    ensures ByteLength(a + b) == ByteLength(a) + ByteLength(b)
  {
    if b == "" {
      assert a + b == a;
    } else {
      ByteLengthOfPair(a, b[..|b| - 1]);
      assert (a + b)[..|a + b| - 1] == a + b[..|b| - 1];
    }
  }

  /** Characters of one byte that the encoder does not escape. */
  predicate OrdinaryText(text: string) {
    forall i | 0 <= i < |text| :: text[i] < '\U{80}' && text[i] !in SPECIAL
  }

  lemma {:induction false} OrdinaryEscape(text: string)
    requires OrdinaryText(text)
    ensures Escape(text) == text
  {
    if text != [] {
      OrdinaryEscape(text[1..]);
    }
  }

  lemma {:induction false} OneByteEach(text: string)
    requires forall i | 0 <= i < |text| :: text[i] < '\U{80}'
    ensures ByteLength(text) == |text|
  {
    if text != "" {
      OneByteEach(text[..|text| - 1]);
    }
  }

  lemma QuotedBytes(key: string, text: string)
    requires text != ""
    ensures ByteLength(LineOf(key, text)) == ByteLength(key) + 3 + ByteLength(Escape(text))
  {
    ByteLengthOfPair(key + ['='], Quote(Escape(text)));
    ByteLengthOfPair(key, ['=']);
    ByteLengthOfPair(['"'] + Escape(text), ['"']);
    ByteLengthOfPair(['"'], Escape(text));
    OneByteEach(['"']);
    OneByteEach(['=']);
  }

  /** An ordinary value of a supported key can be read again exactly up to this length, quotes and key included. */
  lemma OrdinaryLineFits(key: string, value: string)
    requires KeyText(key) && OrdinaryText(value) && value != ""
    ensures LineFits(key, value) <==> |key| + 3 + |value| <= MAXIMUM_LINE_BYTES
  {
    QuotedBytes(key, value);
    OrdinaryEscape(value);
    OneByteEach(value);
    OneByteEach(key);
  }

  /** A character of this many bytes in UTF-8. */
  predicate HasWidth(c: char, bytes: nat) {
    match bytes
    case 1 => c < '\U{80}'
    case 2 => '\U{80}' <= c < '\U{800}'
    case 3 => '\U{800}' <= c < '\U{10000}'
    case 4 => '\U{10000}' <= c
    case _ => false
  }

  lemma {:induction false} UniformBytes(text: string, bytes: nat)
    requires forall i | 0 <= i < |text| :: HasWidth(text[i], bytes)
    ensures ByteLength(text) == bytes * |text|
  {
    if text != "" {
      UniformBytes(text[..|text| - 1], bytes);
    }
  }

  lemma {:induction false} PlainEscape(text: string)
    requires forall i | 0 <= i < |text| :: text[i] !in SPECIAL
    ensures Escape(text) == text
  {
    if text != [] {
      PlainEscape(text[1..]);
    }
  }

  /** How many characters fit depends on their width: a third as many from the basic plane as from ASCII. */
  lemma WideLineFits(key: string, value: string, bytes: nat)
    requires KeyText(key) && value != ""
    requires forall i | 0 <= i < |value| :: HasWidth(value[i], bytes) && value[i] !in SPECIAL
    ensures LineFits(key, value) <==> |key| + 3 + bytes * |value| <= MAXIMUM_LINE_BYTES
  {
    QuotedBytes(key, value);
    PlainEscape(value);
    UniformBytes(value, bytes);
    OneByteEach(key);
  }

  /** No value has fewer bytes than characters, quoted or not. */
  lemma {:induction false} ManyCharactersManyBytes(text: string)
    ensures ByteLength(text) >= |text|
  {
    if text != "" {
      ManyCharactersManyBytes(text[..|text| - 1]);
    }
  }

  lemma {:induction false} EscapeGrows(value: string)
    ensures |Escape(value)| >= |value|
  {
    if value != [] {
      EscapeGrows(value[1..]);
    }
  }

  /** A password just over the limit is written without complaint, and the file that holds it cannot be read. */
  lemma LongPasswordIsLost(password: string, values: map<string, string>)
    requires OrdinaryText(password) && |password| == 65511 && Encodable(password)
    requires values == map[PASSWORD := password]
    ensures Contents([PASSWORD], values, "").Ok?
    ensures ReadAgain([PASSWORD], Contents([PASSWORD], values, "").value) == Err(TOO_LONG)
    ensures LineFits(PASSWORD, password[1..])
  {
    KeyTextIsGood(PASSWORD);
    OrdinaryLineFits(PASSWORD, password);
    OrdinaryLineFits(PASSWORD, password[1..]);
    FileRoundTrip([PASSWORD], values);
  }

  // ----- the supported keys -----

  predicate KeyText(key: string) {
    forall i | 0 <= i < |key| :: 'A' <= key[i] <= 'Z' || key[i] == '_'
  }

  /** Names of environment variables as this program has them. */
  type Key = key: string | KeyText(key) && key != "" witness "A"

  function Joined(a: Key, b: Key): Key {
    a + b
  }

  const PREFIX: Key := "GRAND_LYON_MCP_"

  const USERNAME: Key := "DATAGRANDLYON_USERNAME"
  const PASSWORD: Key := "DATAGRANDLYON_PASSWORD"
  const CONFIG_DIR: Key := Joined(PREFIX, "CONFIG_DIR")
  const DATA_DIR: Key := Joined(PREFIX, "DATA_DIR")
  const DB_PATH: Key := Joined(PREFIX, "DB_PATH")
  const FIXTURES_DIR: Key := Joined(PREFIX, "FIXTURES_DIR")
  const LOG_LEVEL: Key := Joined(PREFIX, "LOG_LEVEL")
  const OFFLINE: Key := Joined(PREFIX, "OFFLINE")
  const VERIFY_TLS: Key := Joined(PREFIX, "VERIFY_TLS")
  const HTTP_CONNECT_TIMEOUT_SECONDS: Key := Joined(PREFIX, "HTTP_CONNECT_TIMEOUT_SECONDS")
  const HTTP_READ_TIMEOUT_SECONDS: Key := Joined(PREFIX, "HTTP_READ_TIMEOUT_SECONDS")
  const TOOL_TIMEOUT_SECONDS: Key := Joined(PREFIX, "TOOL_TIMEOUT_SECONDS")
  const MAX_PARALLEL_REQUESTS: Key := Joined(PREFIX, "MAX_PARALLEL_REQUESTS")
  const FUZZY_SCORE_THRESHOLD: Key := Joined(PREFIX, "FUZZY_SCORE_THRESHOLD")
  const BRIEFING_RETENTION_DAYS: Key := Joined(PREFIX, "BRIEFING_RETENTION_DAYS")
  const BRIEFING_MAX_COUNT: Key := Joined(PREFIX, "BRIEFING_MAX_COUNT")
  const VELOV_RETENTION_DAYS: Key := Joined(PREFIX, "VELOV_RETENTION_DAYS")
  const VELOV_MAX_COUNT: Key := Joined(PREFIX, "VELOV_MAX_COUNT")
  const TRANSITOUS_ENABLED: Key := "TRANSITOUS_ENABLED"
  const TRANSITOUS_BASE_URL: Key := "TRANSITOUS_BASE_URL"

  const SUPPORTED_KEYS: seq<Key> :=
    [USERNAME, PASSWORD, CONFIG_DIR, DATA_DIR, DB_PATH, FIXTURES_DIR, LOG_LEVEL, OFFLINE,
     VERIFY_TLS, HTTP_CONNECT_TIMEOUT_SECONDS, HTTP_READ_TIMEOUT_SECONDS, TOOL_TIMEOUT_SECONDS,
     MAX_PARALLEL_REQUESTS, FUZZY_SCORE_THRESHOLD,
     BRIEFING_RETENTION_DAYS, BRIEFING_MAX_COUNT, VELOV_RETENTION_DAYS, VELOV_MAX_COUNT,
     TRANSITOUS_ENABLED, TRANSITOUS_BASE_URL]

  lemma KeyTextIsGood(key: string)
    requires KeyText(key) && key != ""
    ensures GoodKey(key)
  {
    VisibleIsNoSpace(key[0]);
    VisibleIsNoSpace(key[|key| - 1]);
  }

  /** The keys of the secrets file are such keys, so FileRoundTrip applies to it. */
  lemma SupportedKeysAreGood(key: Key)
    requires key in SUPPORTED_KEYS
    ensures GoodKey(key)
  {
    KeyTextIsGood(key);
  }

  // ----- credentials and the configuration directory -----

  /** secretEnvironmentValues */
  function Credentials(username: string, password: string, configDir: string): map<string, string> {
    map[USERNAME := username, PASSWORD := password, CONFIG_DIR := configDir]
  }

  /** The bytes that a value adds to its key on a line: the equals sign, and the quotes of a value that is not empty. */
  function ValueBytes(value: string): nat {
    if value == "" then 1 else 3 + ByteLength(Escape(value))
  }

  /** The lines of the three values fit; their keys have 22, 22 and 25 bytes. */
  predicate CredentialsFit(username: string, password: string, configDir: string) {
    && 22 + ValueBytes(username) <= MAXIMUM_LINE_BYTES && 22 + ValueBytes(password) <= MAXIMUM_LINE_BYTES
    && 25 + ValueBytes(configDir) <= MAXIMUM_LINE_BYTES
  }

  lemma LineBytes(key: string, value: string)
    requires KeyText(key)
    ensures LineFits(key, value) <==> |key| + ValueBytes(value) <= MAXIMUM_LINE_BYTES
  {
    OneByteEach(key);
    if value == "" {
      ByteLengthOfPair(key, ['=']);
      OneByteEach(['=']);
      assert LineOf(key, value) == key + ['='];
    } else {
      QuotedBytes(key, value);
    }
  }

  lemma CredentialKeys()
    ensures USERNAME in SUPPORTED_KEYS && PASSWORD in SUPPORTED_KEYS && CONFIG_DIR in SUPPORTED_KEYS
  {
    assert SUPPORTED_KEYS[0] == USERNAME && SUPPORTED_KEYS[1] == PASSWORD && SUPPORTED_KEYS[2] == CONFIG_DIR;
  }

  lemma CredentialKeyBytes()
    ensures |USERNAME| == |PASSWORD| == 22 && |CONFIG_DIR| == 25
    ensures USERNAME != PASSWORD
  {
    assert USERNAME[14] == 'U' && PASSWORD[14] == 'P';
  }

  lemma FitAtThree(keys: seq<string>, a: string, b: string, c: string, x: string, y: string, z: string)
    requires a in keys && b in keys && c in keys && a != b && a != c && b != c
    ensures AllFit(keys, map[a := x, b := y, c := z]) <==> LineFits(a, x) && LineFits(b, y) && LineFits(c, z)
    ensures Encodable(x) && Encodable(y) && Encodable(z) ==> AllEncodable(keys, map[a := x, b := y, c := z])
    ensures Kept(keys, map[a := x, b := y, c := z]) == map[a := x, b := y, c := z]
  {
    var values := map[a := x, b := y, c := z];
    assert values[a] == x && values[b] == y && values[c] == z;
  }

  /** Three values, written under three of the keys and read again. */
  lemma ThreeRoundTrip(keys: seq<string>, a: Key, b: Key, c: Key, x: string, y: string, z: string)
    requires a in keys && b in keys && c in keys && a != b && a != c && b != c
    requires (forall key | key in keys :: GoodKey(key)) && Encodable(x) && Encodable(y) && Encodable(z)
    ensures
      var values := map[a := x, b := y, c := z];
      var fit := |a| + ValueBytes(x) <= MAXIMUM_LINE_BYTES && |b| + ValueBytes(y) <= MAXIMUM_LINE_BYTES
          && |c| + ValueBytes(z) <= MAXIMUM_LINE_BYTES;
      && Contents(keys, values, "").Ok?
      && ReadAgain(keys, Contents(keys, values, "").value) == if fit then Ok(values) else Err(TOO_LONG)
  {
    var values: map<string, string> := map[a := x, b := y, c := z];
    FileRoundTrip(keys, values);
    LineBytes(a, x);
    LineBytes(b, y);
    LineBytes(c, z);
    FitAtThree(keys, a, b, c, x, y, z);
  }

  lemma AllKeysAreGood(keys: seq<string>)
    requires keys == SUPPORTED_KEYS
    ensures forall key | key in keys :: GoodKey(key)
  {
    forall key | key in keys ensures GoodKey(key) {
      SupportedKeysAreGood(key);
    }
  }

  /** What WriteSecrets writes of the credentials and the directory is read back, if and only if their lines fit. */
  lemma CredentialsRoundTrip(username: string, password: string, configDir: string, keys: seq<string>)
    requires Encodable(username) && Encodable(password) && Encodable(configDir) && keys == SUPPORTED_KEYS
    ensures
      var values := Credentials(username, password, configDir);
      && Contents(keys, values, "").Ok?
      && ReadAgain(keys, Contents(keys, values, "").value) ==
          if CredentialsFit(username, password, configDir) then Ok(values) else Err(TOO_LONG)
  {
    CredentialKeys();
    CredentialKeyBytes();
    AllKeysAreGood(keys);
    ThreeRoundTrip(keys, USERNAME, PASSWORD, CONFIG_DIR, username, password, configDir);
  }

  /** A password of more than the limit does not fit. */
  lemma LongPasswordDoesNotFit(username: string, password: string, configDir: string)
    requires |password| > MAXIMUM_LINE_BYTES
    ensures !CredentialsFit(username, password, configDir)
  {
    EscapeGrows(password);
    ManyCharactersManyBytes(Escape(password));
  }
}
