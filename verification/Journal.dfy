/**
  The formatter for the systemd Journal Native Protocol, and that protocol's own reading
  of a datagram (its "Data Format": a field is KEY=VALUE and a newline, or, for values that
  contain newlines, KEY and a newline, a 64-bit little-endian length, the value and a
  newline). Keys are strings of Unicode scalars; everything written is bytes.
 */
module Journal {
  import opened Basics
  import opened Options

  const U64_LIMIT: nat := 0x1_0000_0000_0000_0000
  const NEWLINE: Byte := 10
  const EQUALS: Byte := 61
  const MAX_KEY_BYTES: nat := 64

  /** Text as bytes; no string is longer than a 64-bit length can say. */
  type Text = s: seq<Byte> | |s| < U64_LIMIT

  datatype Field = Field(key: seq<Byte>, value: Text)

  // ---------------------------------------------------------------------------
  // Keys

  /** The encoding of a character (section 3 of RFC 3629). */
  function Utf8(c: char): (bs: Text)
    ensures NEWLINE in bs <==> c == '\n'
    ensures c == '\n' ==> bs == [NEWLINE]
  {
    var u := c as int;
    if u < 0x80 then [u]
    else if u < 0x800 then [0xC0 + u / 64, 0x80 + u % 64]
    else if u < 0x10000 then [0xE0 + u / 4096, 0x80 + u / 64 % 64, 0x80 + u % 64]
    else [0xF0 + u / 262144, 0x80 + u / 4096 % 64, 0x80 + u / 64 % 64, 0x80 + u % 64]
  }

  /** The low six bits, which is what a continuation byte carries. */
  function Six(b: Byte): (n: int) {
    b as int - 0x80
  }

  /** Reading one encoded character back, by its leading byte. */
  function FromUtf8(bs: seq<Byte>): (u: int) {
    match |bs|
    case 1 => bs[0]
    case 2 => (bs[0] as int - 0xC0) * 64 + Six(bs[1])
    case 3 => ((bs[0] as int - 0xE0) * 64 + Six(bs[1])) * 64 + Six(bs[2])
    case 4 => (((bs[0] as int - 0xF0) * 64 + Six(bs[1])) * 64 + Six(bs[2])) * 64 + Six(bs[3])
    case _ => -1
  }

  predicate IsContinuation(b: Byte) {
    0x80 <= b < 0xC0
  }

  lemma Quotients(u: nat)
    ensures u / 4096 == u / 64 / 64 && u / 262144 == u / 64 / 64 / 64
  {
  }

  /** Encoding is inverted by decoding, and the leading byte tells the length. */
  lemma Utf8Inverse(c: char)
    ensures var bs := Utf8(c);
            && FromUtf8(bs) == c as int
            && (|bs| == 1 <==> bs[0] < 0x80)
            && (|bs| == 2 ==> 0xC0 <= bs[0] < 0xE0)
            && (|bs| == 3 ==> 0xE0 <= bs[0] < 0xF0)
            && (|bs| == 4 ==> 0xF0 <= bs[0] < 0xF8)
            && forall i :: 1 <= i < |bs| ==> IsContinuation(bs[i])
  {
    var u := c as int;
    Quotients(u);
    assert u == u / 64 * 64 + u % 64;
    assert u / 64 == u / 64 / 64 * 64 + u / 64 % 64;
    assert u / 64 / 64 == u / 64 / 64 / 64 * 64 + u / 64 / 64 % 64;
  }

  /** The length of a text in bytes. */
  function Utf8Size(s: string): (n: nat)
    ensures n >= |s|
  {
    if s == "" then 0 else Utf8Size(s[..|s| - 1]) + |Utf8(s[|s| - 1])|
  }

  predicate IsAsciiAlphabetic(c: char) {
    'A' <= c <= 'Z' || 'a' <= c <= 'z'
  }

  predicate IsFieldChar(c: char) {
    'A' <= c <= 'Z' || '0' <= c <= '9' || c == '_'
  }

  function FieldChar(c: char): (r: char)
    ensures IsFieldChar(r)
    ensures IsFieldChar(c) ==> r == c
    ensures 'a' <= c <= 'z' ==> r as int == c as int - 32
    ensures !IsFieldChar(c) && !('a' <= c <= 'z') ==> r == '_'
  {
    if 'A' <= c <= 'Z' || '0' <= c <= '9' then c
    else if 'a' <= c <= 'z' then (c as int - 'a' as int + 'A' as int) as char
    else '_'
  }

  predicate Acceptable(s: string) {
    s != "" && Utf8Size(s) <= MAX_KEY_BYTES && IsAsciiAlphabetic(s[0])
  }

  function MapKey(s: string): (k: string)
    ensures |k| == |s|
    ensures forall i :: 0 <= i < |s| ==> k[i] == FieldChar(s[i])
  {
    seq(|s|, i requires 0 <= i < |s| => FieldChar(s[i]))
  }

  function Sanitized(s: string): (k: Option<string>) {
    if Acceptable(s) then Some(MapKey(s)) else None
  }

  method SanitizedKey(s: string) returns (k: Option<string>)
    ensures k == Sanitized(s)
    ensures k.None? <==> s == "" || Utf8Size(s) > 64 || !('A' <= s[0] <= 'Z' || 'a' <= s[0] <= 'z')
    ensures k.Some? ==> |k.value| == |s| && forall i :: 0 <= i < |s| ==> k.value[i] == FieldChar(s[i])
  {
    if !Acceptable(s) {
      return None;
    }
    var key := "";
    for i := 0 to |s|
      invariant key == MapKey(s[..i])
    {
      key := key + [FieldChar(s[i])];
    }
    assert s[..|s|] == s;
    return Some(key);
  }

  lemma {:induction false} AsciiSize(s: string)
    requires forall i :: 0 <= i < |s| ==> IsFieldChar(s[i])
    ensures Utf8Size(s) == |s|
  {
    if s != "" {
      AsciiSize(s[..|s| - 1]);
    }
  }

  /** Cleaning a clean key changes nothing: an accepted key is accepted again, as it is. */
  lemma SanitizedIdempotent(s: string)
    requires Sanitized(s).Some?
    ensures Sanitized(Sanitized(s).value) == Sanitized(s)
  {
    var k := MapKey(s);
    AsciiSize(k);
    assert IsFieldChar(k[0]) && IsAsciiAlphabetic(k[0]);
    assert MapKey(k) == k;
  }

  function CharByte(c: char): (b: Byte)
    requires IsFieldChar(c)
    ensures b != EQUALS && b != NEWLINE
    ensures b == c as int
  {
    c as int
  }

  function KeyBytes(k: string): (bs: seq<Byte>)
    requires forall i :: 0 <= i < |k| ==> IsFieldChar(k[i])
    ensures |bs| == |k|
    ensures forall i :: 0 <= i < |k| ==> bs[i] == k[i] as int
  {
    seq(|k|, i requires 0 <= i < |k| => CharByte(k[i]))
  }

  /** An accepted key never contains what would break the framing. */
  lemma KeyIsPlain(k: string)
    requires forall i :: 0 <= i < |k| ==> IsFieldChar(k[i])
    ensures EQUALS !in KeyBytes(k) && NEWLINE !in KeyBytes(k)
  {
  }

  // ---------------------------------------------------------------------------
  // Reading

  function FromLittleEndian(bs: seq<Byte>): (n: nat) {
    if bs == [] then 0 else bs[0] + 256 * FromLittleEndian(bs[1..])
  }

  /** One field off the front, with what follows it. */
  function ParseOne(bs: seq<Byte>): (r: Option<(Field, seq<Byte>)>)
    ensures r.Some? ==> |r.value.1| < |bs|
  {
    var end := IndexOf(bs, NEWLINE);
    if end == |bs| then None
    else
      var line, rest := bs[..end], bs[end + 1..];
      var eq := IndexOf(line, EQUALS);
      if eq == |line| then ParseSized(line, rest)
      else if |line| - eq > U64_LIMIT then None
      else Some((Field(line[..eq], line[eq + 1..]), rest))
  }

  /** The length-prefixed form, behind its key line. */
  function ParseSized(key: seq<Byte>, bs: seq<Byte>): (r: Option<(Field, seq<Byte>)>)
    ensures r.Some? ==> |r.value.1| < |bs|
  {
    if |bs| < 8 then None
    else
      var n, data := FromLittleEndian(bs[..8]), bs[8..];
      if n >= U64_LIMIT || |data| <= n || data[n] != NEWLINE then None
      else Some((Field(key, data[..n]), data[n + 1..]))
  }

  function Parse(bs: seq<Byte>): (fields: Option<seq<Field>>)
    decreases |bs|
  {
    if bs == [] then Some([])
    else
      var one := ParseOne(bs);
      if one.None? then None
      else
        var more := Parse(one.value.1);
        if more.None? then None else Some([one.value.0] + more.value)
  }

  // ---------------------------------------------------------------------------
  // Writing

  function LittleEndian(n: nat, k: nat): (bs: seq<Byte>)
    ensures |bs| == k
    decreases k, n
  {
    if k == 0 then [] else [n % 256] + LittleEndian(n / 256, k - 1)
  }

  lemma {:induction false} LittleEndianInverse(n: nat, k: nat)
    requires n < Pow256(k)
    ensures FromLittleEndian(LittleEndian(n, k)) == n
    decreases k
  {
    if k > 0 {
      LittleEndianInverse(n / 256, k - 1);
      assert LittleEndian(n, k)[1..] == LittleEndian(n / 256, k - 1);
    }
  }

  function OneLine(key: seq<Byte>, value: seq<Byte>): (bs: seq<Byte>) {
    key + [EQUALS] + value + [NEWLINE]
  }

  function MultiLine(key: seq<Byte>, value: Text): (bs: seq<Byte>) {
    key + [NEWLINE] + LittleEndian(|value|, 8) + value + [NEWLINE]
  }

  function Encode(f: Field): (bs: seq<Byte>) {
    if NEWLINE in f.value then MultiLine(f.key, f.value) else OneLine(f.key, f.value)
  }

  function Concat(parts: seq<seq<Byte>>): (bs: seq<Byte>) {
    if parts == [] then [] else parts[0] + Concat(parts[1..])
  }

  function Parts(fields: seq<Field>): (parts: seq<seq<Byte>>)
    ensures |parts| == |fields|
  {
    seq(|fields|, i requires 0 <= i < |fields| => Encode(fields[i]))
  }

  function EncodeAll(fields: seq<Field>): (bs: seq<Byte>) {
    Concat(Parts(fields))
  }

  lemma {:induction false} EncodeAllUnfold(fields: seq<Field>)
    requires fields != []
    ensures EncodeAll(fields) == Encode(fields[0]) + EncodeAll(fields[1..])
  {
    assert Parts(fields)[1..] == Parts(fields[1..]);
  }

  predicate Plain(key: seq<Byte>) {
    EQUALS !in key && NEWLINE !in key
  }

  // ---------------------------------------------------------------------------
  // What is written is read back

  lemma {:induction false} ReadOneLine(key: seq<Byte>, value: Text, rest: seq<Byte>)
    requires Plain(key) && NEWLINE !in value
    ensures ParseOne(OneLine(key, value) + rest) == Some((Field(key, value), rest))
  {
    var line := key + [EQUALS] + value;
    var bs := OneLine(key, value) + rest;
    assert bs == line + ([NEWLINE] + rest);
    SplitAt(line, rest);
    assert line[..|key|] == key && line[|key| + 1..] == value;
    IndexAfter(key, EQUALS, value);
  }

  lemma {:induction false} ReadSized(key: seq<Byte>, size: seq<Byte>, value: Text, rest: seq<Byte>)
    requires |size| == 8 && FromLittleEndian(size) == |value|
    ensures ParseSized(key, size + (value + ([NEWLINE] + rest))) == Some((Field(key, value), rest))
  {
    var data, n := value + ([NEWLINE] + rest), |value|;
    assert (size + data)[..8] == size && (size + data)[8..] == data;
    assert data[..n] == value && data[n] == NEWLINE && data[n + 1..] == rest;
  }

  lemma RegroupSized(a: seq<Byte>, b: seq<Byte>, c: seq<Byte>, d: seq<Byte>, e: seq<Byte>, rest: seq<Byte>)
    ensures a + b + c + d + e + rest == a + (b + (c + (d + (e + rest))))
  {
  }

  lemma {:induction false} ReadMultiLine(key: seq<Byte>, value: Text, rest: seq<Byte>)
    requires Plain(key)
    ensures ParseOne(MultiLine(key, value) + rest) == Some((Field(key, value), rest))
  {
    var bs := MultiLine(key, value) + rest;
    var size := LittleEndian(|value|, 8);
    var after := size + (value + ([NEWLINE] + rest));
    RegroupSized(key, [NEWLINE], size, value, [NEWLINE], rest);
    SplitAt(key, after);
    assert IndexOf(key, EQUALS) == |key|;
    Pow256Eight();
    LittleEndianInverse(|value|, 8);
    ReadSized(key, size, value, rest);
  }

  /** The first line of a byte string, and what follows it. */
  lemma {:induction false} SplitAt(line: seq<Byte>, after: seq<Byte>)
    requires NEWLINE !in line
    ensures var bs := line + ([NEWLINE] + after);
            IndexOf(bs, NEWLINE) == |line| && bs[..|line|] == line && bs[|line| + 1..] == after
  {
    var bs := line + ([NEWLINE] + after);
    assert bs == line + [NEWLINE] + after;
    IndexAfter(line, NEWLINE, after);
  }

  lemma Pow256Eight()
    ensures Pow256(8) == U64_LIMIT
  {
  }

  ghost predicate AllPlain(fields: seq<Field>) {
    forall i :: 0 <= i < |fields| ==> Plain(fields[i].key)
  }

  /** The framing is unambiguous: fields come back in order, and reading goes on right behind them. */
  lemma {:induction false} ReadBack(fields: seq<Field>, rest: seq<Byte>)
    requires AllPlain(fields)
    ensures Parse(EncodeAll(fields) + rest)
            == if Parse(rest).None? then None else Some(fields + Parse(rest).value)
    decreases |fields|
  {
    if fields == [] {
      assert [] + rest == rest;
      assert Parse(rest).Some? ==> [] + Parse(rest).value == Parse(rest).value;
    } else {
      var f, more := fields[0], EncodeAll(fields[1..]) + rest;
      EncodeAllUnfold(fields);
      Assoc(Encode(f), EncodeAll(fields[1..]), rest);
      ParseCons(f, more);
      ReadBack(fields[1..], rest);
      if Parse(rest).Some? {
        Prepend(fields, Parse(rest).value);
      }
    }
  }

  lemma Prepend(fields: seq<Field>, more: seq<Field>)
    requires fields != []
    ensures [fields[0]] + (fields[1..] + more) == fields + more
  {
  }

  lemma {:induction false} ParseCons(f: Field, more: seq<Byte>)
    requires Plain(f.key)
    ensures Parse(Encode(f) + more) == if Parse(more).None? then None else Some([f] + Parse(more).value)
  {
    ReadOne(f, more);
  }

  lemma {:induction false} ReadOne(f: Field, rest: seq<Byte>)
    requires Plain(f.key)
    ensures Encode(f) + rest != []
    ensures ParseOne(Encode(f) + rest) == Some((f, rest))
  {
    if NEWLINE in f.value {
      ReadMultiLine(f.key, f.value, rest);
    } else {
      ReadOneLine(f.key, f.value, rest);
    }
  }

  // ---------------------------------------------------------------------------
  // The formatter

  type Line = s: Text | NEWLINE !in s

  /** The values a log record may carry. Numbers come as the text an external library made of them. */
  datatype Value = Str(text: Text) | Char(c: char) | Bool(b: bool) | Number(digits: Line) | Absent

  const TRUE_TEXT: Line := [116, 114, 117, 101]
  const FALSE_TEXT: Line := [102, 97, 108, 115, 101]

  function TextOf(v: Value): (t: Option<Text>) {
    match v
    case Str(text) => Some(text)
    case Char(c) => Some(Utf8(c))
    case Bool(b) => Some(if b then TRUE_TEXT else FALSE_TEXT)
    case Number(digits) => Some(digits)
    case Absent => None
  }

  /** The field a key and a value stand for: none if the key is refused or the value is absent. */
  function FieldOf(key: string, v: Value): (fields: seq<Field>)
    ensures |fields| <= 1
    ensures AllPlain(fields)
  {
    if Sanitized(key).None? || TextOf(v).None? then []
    else
      KeyIsPlain(Sanitized(key).value);
      [Field(KeyBytes(Sanitized(key).value), TextOf(v).value)]
  }

  function FieldsOf(kvs: seq<(string, Value)>): (fields: seq<Field>)
    ensures AllPlain(fields)
  {
    if kvs == [] then [] else FieldsOf(kvs[..|kvs| - 1]) + FieldOf(kvs[|kvs| - 1].0, kvs[|kvs| - 1].1)
  }

  lemma Assoc(x: seq<Byte>, y: seq<Byte>, z: seq<Byte>)
    ensures x + (y + z) == (x + y) + z
  {
  }

  lemma Neutral(x: seq<Byte>)
    ensures x + [] == x == [] + x
  {
  }

  lemma {:induction false} ConcatAppend(a: seq<seq<Byte>>, b: seq<seq<Byte>>)
    ensures Concat(a + b) == Concat(a) + Concat(b)
  {
    if a == [] {
      assert a + b == b;
    } else {
      ConcatAppend(a[1..], b);
      assert (a + b)[1..] == a[1..] + b;
      Assoc(a[0], Concat(a[1..]), Concat(b));
    }
  }

  lemma {:induction false} EncodeAllAppend(a: seq<Field>, b: seq<Field>)
    ensures EncodeAll(a + b) == EncodeAll(a) + EncodeAll(b)
  {
    assert Parts(a + b) == Parts(a) + Parts(b);
    ConcatAppend(Parts(a), Parts(b));
  }

  lemma EncodeSingle(f: Field)
    ensures EncodeAll([f]) == Encode(f)
  {
    EncodeAllUnfold([f]);
    Neutral(Encode(f));
  }

  datatype Level = Critical | Error | Warning | Info | Debug | Trace

  function Priority(level: Level): (p: Line)
    ensures |p| == 1
  {
    match level
    case Critical => [50]
    case Error => [51]
    case Warning => [52]
    case Info => [53]
    case Debug => [54]
    case Trace => [55]
  }

  datatype Record = Record(
    level: Level,
    ident: Text,
    kvs: seq<(string, Value)>,
    position: Option<Text>,
    message: Text)

  function Named(key: string): (bs: seq<Byte>)
    requires forall i :: 0 <= i < |key| ==> IsFieldChar(key[i])
    ensures Plain(bs)
  {
    KeyIsPlain(key);
    KeyBytes(key)
  }

  const PRIORITY: seq<Byte> := Named("PRIORITY")
  const IDENTIFIER: seq<Byte> := Named("SYSLOG_IDENTIFIER")
  const POSITION: seq<Byte> := Named("CODE_POSITION")
  const MESSAGE: seq<Byte> := Named("MESSAGE")

  /** The fields a record is meant to carry, in order. */
  function Expected(r: Record): (fields: seq<Field>) {
    [Field(PRIORITY, Priority(r.level)), Field(IDENTIFIER, r.ident)]
      + FieldsOf(r.kvs)
      + (if r.position.Some? then [Field(POSITION, r.position.value)] else [])
      + [Field(MESSAGE, r.message)]
  }

  /** A text of ASCII characters as bytes. */
  function Ascii(s: string): (bs: seq<Byte>)
    ensures |bs| == |s|
    ensures forall i :: 0 <= i < |s| && s[i] as int < 128 ==> bs[i] == s[i] as int
  {
    seq(|s|, i requires 0 <= i < |s| => if s[i] as int < 128 then s[i] as int else 63)
  }

  /** The levels as the severities of syslog. */
  lemma PriorityIs(level: Level)
    ensures Priority(level) == Ascii(match level
                                     case Critical => "2"
                                     case Error => "3"
                                     case Warning => "4"
                                     case Info => "5"
                                     case Debug => "6"
                                     case Trace => "7")
  {
  }

  /** The texts of the values that have a fixed one. */
  lemma TextIs(v: Value)
    ensures v.Bool? ==> TextOf(v) == Some(Ascii(if v.b then "true" else "false"))
    ensures v.Str? ==> TextOf(v) == Some(v.text)
    ensures v.Number? ==> TextOf(v) == Some(v.digits)
    ensures v.Char? ==> TextOf(v).Some? && FromUtf8(TextOf(v).value) == v.c as int
    ensures v.Absent? <==> TextOf(v).None?
  {
    assert TRUE_TEXT == Ascii("true") && FALSE_TEXT == Ascii("false");
    if v.Char? {
      Utf8Inverse(v.c);
    }
  }

  lemma KeysAre()
    ensures PRIORITY == Ascii("PRIORITY") && IDENTIFIER == Ascii("SYSLOG_IDENTIFIER")
    ensures POSITION == Ascii("CODE_POSITION") && MESSAGE == Ascii("MESSAGE")
  {
  }

  /** A record's own fields stand in front of and behind those of its key-value pairs. */
  lemma ExpectedIs(r: Record)
    ensures var fields, kvs := Expected(r), FieldsOf(r.kvs);
            var n := |kvs| + 2;
            && |fields| == n + (if r.position.Some? then 2 else 1)
            && fields[0] == Field(Ascii("PRIORITY"), Priority(r.level))
            && fields[1] == Field(Ascii("SYSLOG_IDENTIFIER"), r.ident)
            && fields[2..n] == kvs
            && (r.position.Some? ==> fields[n] == Field(Ascii("CODE_POSITION"), r.position.value))
            && fields[|fields| - 1] == Field(Ascii("MESSAGE"), r.message)
  {
    KeysAre();
  }

  ghost predicate Increasing(at: seq<nat>) {
    forall i, j :: 0 <= i < j < |at| ==> at[i] < at[j]
  }

  /**
    Exactly the pairs with an acceptable key and a value are written, in order, each under
    its sanitized key and with its text.
   */
  ghost predicate Selected(kvs: seq<(string, Value)>, fields: seq<Field>, at: seq<nat>) {
    && Increasing(at) && |at| == |fields|
    && (forall i :: 0 <= i < |at| ==>
          && at[i] < |kvs|
          && Acceptable(kvs[at[i]].0) && TextOf(kvs[at[i]].1).Some?
          && fields[i] == Field(KeyBytes(MapKey(kvs[at[i]].0)), TextOf(kvs[at[i]].1).value))
    && (forall k :: 0 <= k < |kvs| && Acceptable(kvs[k].0) && !kvs[k].1.Absent? ==> k in at)
  }

  lemma SelectedMore(kvs: seq<(string, Value)>, kv: (string, Value), fields: seq<Field>, at: seq<nat>)
    requires Selected(kvs, fields, at)
    ensures Selected(kvs + [kv], fields + FieldOf(kv.0, kv.1), at + if FieldOf(kv.0, kv.1) == [] then [] else [|kvs|])
  {
    TextIs(kv.1);
    var all := kvs + [kv];
    var at' := at + if FieldOf(kv.0, kv.1) == [] then [] else [|kvs|];
    forall k | 0 <= k < |all| && Acceptable(all[k].0) && !all[k].1.Absent? ensures k in at' {
      if k < |kvs| {
        assert k in at;
      } else {
        assert at'[|at|] == k;
      }
    }
  }

  lemma {:induction false} FieldsAre(kvs: seq<(string, Value)>) returns (at: seq<nat>)
    ensures Selected(kvs, FieldsOf(kvs), at)
    decreases |kvs|
  {
    if kvs == [] {
      at := [];
    } else {
      var init, last := kvs[..|kvs| - 1], kvs[|kvs| - 1];
      at := FieldsAre(init);
      SelectedMore(init, last, FieldsOf(init), at);
      at := at + if FieldOf(last.0, last.1) == [] then [] else [|init|];
      assert kvs == init + [last];
    }
  }

  /** The two forms of a field, byte by byte, on the smallest examples. */
  lemma Forms()
    ensures OneLine(Ascii("A"), Ascii("B")) == Ascii("A=B\n")
    ensures MultiLine(Ascii("A"), [10]) == Ascii("A\n") + [1, 0, 0, 0, 0, 0, 0, 0] + Ascii("\n\n")
  {
    assert LittleEndian(1, 8) == [1] + LittleEndian(0, 7);
    ZeroBytes(7);
    assert LittleEndian(0, 7) == [0, 0, 0, 0, 0, 0, 0];
  }

  lemma {:induction false} ZeroBytes(k: nat)
    ensures forall i :: 0 <= i < k ==> LittleEndian(0, k)[i] == 0
  {
    if k > 0 {
      ZeroBytes(k - 1);
    }
  }

  /** The bytes written: the identifier and the position go out as single lines, unchecked. */
  function Formatted(r: Record): (bs: seq<Byte>) {
    OneLine(PRIORITY, Priority(r.level))
      + OneLine(IDENTIFIER, r.ident)
      + EncodeAll(FieldsOf(r.kvs))
      + (if r.position.Some? then OneLine(POSITION, r.position.value) else [])
      + Encode(Field(MESSAGE, r.message))
  }

  lemma {:induction false} FieldsStep(kvs: seq<(string, Value)>, i: nat, before: seq<Byte>)
    requires i < |kvs|
    ensures before + EncodeAll(FieldsOf(kvs[..i])) + EncodeAll(FieldOf(kvs[i].0, kvs[i].1))
            == before + EncodeAll(FieldsOf(kvs[..i + 1]))
  {
    assert kvs[..i + 1][..i] == kvs[..i];
    EncodeAllAppend(FieldsOf(kvs[..i]), FieldOf(kvs[i].0, kvs[i].1));
    Assoc(before, EncodeAll(FieldsOf(kvs[..i])), EncodeAll(FieldOf(kvs[i].0, kvs[i].1)));
  }

  /** The bytes of a value's field: which of the two forms it takes depends on newlines alone. */
  lemma FieldBytes(key: string, v: Value)
    ensures EncodeAll(FieldOf(key, v))
            == if Sanitized(key).None? || TextOf(v).None? then []
               else Encode(Field(KeyBytes(Sanitized(key).value), TextOf(v).value))
  {
    if Sanitized(key).Some? && TextOf(v).Some? {
      EncodeSingle(Field(KeyBytes(Sanitized(key).value), TextOf(v).value));
    }
  }

  class Formatter {
    var out: seq<Byte>

    constructor ()
      ensures out == []
    {
      out := [];
    }

    method EmitSanitizedOneLine(key: seq<Byte>, value: seq<Byte>)
      modifies this
      ensures out == old(out) + OneLine(key, value)
    {
      out := out + key;
      out := out + [EQUALS];
      out := out + value;
      out := out + [NEWLINE];
    }

    method EmitOneLine(key: string, value: seq<Byte>)
      modifies this
      ensures out == old(out) + if Sanitized(key).None? then [] else OneLine(KeyBytes(Sanitized(key).value), value)
    {
      var k := SanitizedKey(key);
      if k.Some? {
        EmitSanitizedOneLine(KeyBytes(k.value), value);
      }
    }

    method EmitMultiLine(key: string, value: Text)
      modifies this
      ensures out == old(out) + if Sanitized(key).None? then [] else MultiLine(KeyBytes(Sanitized(key).value), value)
    {
      var k := SanitizedKey(key);
      if k.Some? {
        EmitSized(KeyBytes(k.value), LittleEndian(|value|, 8), value);
      }
    }

    method EmitSized(key: seq<Byte>, size: seq<Byte>, value: seq<Byte>)
      modifies this
      ensures out == old(out) + (key + [NEWLINE] + size + value + [NEWLINE])
    {
      out := out + key;
      out := out + [NEWLINE];
      out := out + size;
      out := out + value;
      out := out + [NEWLINE];
    }

    method EmitStr(key: string, value: Text)
      modifies this
      ensures out == old(out) + EncodeAll(FieldOf(key, Str(value)))
    {
      FieldBytes(key, Str(value));
      if NEWLINE in value {
        EmitMultiLine(key, value);
      } else {
        EmitOneLine(key, value);
      }
    }

    /** Whatever its kind, a value is written as the one field it stands for, or not at all. */
    method Emit(key: string, value: Value)
      modifies this
      ensures out == old(out) + EncodeAll(FieldOf(key, value))
    {
      FieldBytes(key, value);
      match value {
        case Str(text) => EmitStr(key, text);
        case Char(c) =>
          if c == '\n' {
            EmitMultiLine(key, [NEWLINE]);
          } else {
            EmitOneLine(key, Utf8(c));
          }
        case Bool(b) => EmitOneLine(key, if b then TRUE_TEXT else FALSE_TEXT);
        case Number(digits) => EmitOneLine(key, digits);
        case Absent =>
      }
    }

    method EmitAll(kvs: seq<(string, Value)>)
      modifies this
      ensures out == old(out) + EncodeAll(FieldsOf(kvs))
    {
      for i := 0 to |kvs|
        invariant out == old(out) + EncodeAll(FieldsOf(kvs[..i]))
      {
        Emit(kvs[i].0, kvs[i].1);
        FieldsStep(kvs, i, old(out));
      }
      assert kvs[..|kvs|] == kvs;
    }
  }

  method FormatSlog(r: Record) returns (bs: seq<Byte>)
    ensures bs == Formatted(r)
  {
    var f := new Formatter();
    f.EmitSanitizedOneLine(PRIORITY, Priority(r.level));
    Neutral(OneLine(PRIORITY, Priority(r.level)));
    f.EmitSanitizedOneLine(IDENTIFIER, r.ident);
    f.EmitAll(r.kvs);
    Neutral(f.out);
    if r.position.Some? {
      f.EmitSanitizedOneLine(POSITION, r.position.value);
    }
    MessageKey(r.message);
    f.EmitStr("MESSAGE", r.message);
    bs := f.out;
  }

  lemma MessageKey(message: Text)
    ensures FieldOf("MESSAGE", Str(message)) == [Field(MESSAGE, message)]
    ensures EncodeAll(FieldOf("MESSAGE", Str(message))) == Encode(Field(MESSAGE, message))
  {
    AsciiSize("MESSAGE");
    assert MapKey("MESSAGE") == "MESSAGE";
    EncodeSingle(Field(MESSAGE, message));
  }

  // ---------------------------------------------------------------------------
  // A record is read back exactly when its unchecked lines are lines

  predicate LinesAreLines(r: Record) {
    NEWLINE !in r.ident && (r.position.Some? ==> NEWLINE !in r.position.value)
  }

  /** What precedes the position line, as fields. */
  function Leading(r: Record): (fields: seq<Field>) {
    [Field(PRIORITY, Priority(r.level)), Field(IDENTIFIER, r.ident)] + FieldsOf(r.kvs)
  }

  function Trailing(r: Record): (fields: seq<Field>) {
    (if r.position.Some? then [Field(POSITION, r.position.value)] else []) + [Field(MESSAGE, r.message)]
  }

  lemma ExpectedSplit(r: Record)
    ensures Expected(r) == Leading(r) + Trailing(r)
    ensures AllPlain(Leading(r)) && AllPlain(Trailing(r))
  {
  }

  lemma EncodePair(f: Field, g: Field)
    ensures EncodeAll([f, g]) == Encode(f) + Encode(g)
  {
    EncodeAllUnfold([f, g]);
    assert [f, g][1..] == [g];
    EncodeSingle(g);
  }

  /** Everything up to the position line, when the identifier is a line. */
  lemma {:induction false} LeadingBytes(r: Record)
    requires NEWLINE !in r.ident
    ensures EncodeAll(Leading(r))
            == OneLine(PRIORITY, Priority(r.level)) + OneLine(IDENTIFIER, r.ident) + EncodeAll(FieldsOf(r.kvs))
  {
    var p, i := Field(PRIORITY, Priority(r.level)), Field(IDENTIFIER, r.ident);
    EncodeAllAppend([p, i], FieldsOf(r.kvs));
    EncodePair(p, i);
  }

  function TrailingBytes(r: Record): (bs: seq<Byte>) {
    (if r.position.Some? then OneLine(POSITION, r.position.value) else []) + Encode(Field(MESSAGE, r.message))
  }

  lemma FormattedSplit(r: Record)
    requires NEWLINE !in r.ident
    ensures Formatted(r) == EncodeAll(Leading(r)) + TrailingBytes(r)
  {
    LeadingBytes(r);
    Assoc(EncodeAll(Leading(r)),
          if r.position.Some? then OneLine(POSITION, r.position.value) else [],
          Encode(Field(MESSAGE, r.message)));
  }

  lemma TrailingIsEncoded(r: Record)
    requires LinesAreLines(r)
    ensures TrailingBytes(r) == EncodeAll(Trailing(r))
  {
    var m := Field(MESSAGE, r.message);
    if r.position.Some? {
      EncodePair(Field(POSITION, r.position.value), m);
      assert Trailing(r) == [Field(POSITION, r.position.value), m];
    } else {
      EncodeSingle(m);
      Neutral(Encode(m));
      assert Trailing(r) == [m];
    }
  }

  /** A line with a newline in its value begins with a shorter line. */
  lemma ShorterLine(key: seq<Byte>, short: seq<Byte>, more: seq<Byte>, rest: seq<Byte>)
    ensures OneLine(key, short + ([NEWLINE] + more)) + rest == OneLine(key, short) + (more + ([NEWLINE] + rest))
  {
  }

  /** A "line" with a newline in it is read as something shorter. */
  lemma {:induction false} BrokenLine(key: seq<Byte>, value: Text, rest: seq<Byte>, more: seq<Field>)
    requires Plain(key) && NEWLINE in value
    ensures Parse(OneLine(key, value) + rest) != Some([Field(key, value)] + more)
  {
    var n := IndexOf(value, NEWLINE);
    assert n < |value|;
    var short: Text := value[..n];
    assert value == short + ([NEWLINE] + value[n + 1..]);
    ShorterLine(key, short, value[n + 1..], rest);
    ReadShorter(Field(key, short), value[n + 1..] + ([NEWLINE] + rest), Field(key, value), more);
  }

  /** A field that is written is what is read first, and nothing else. */
  lemma {:induction false} ReadShorter(f: Field, after: seq<Byte>, other: Field, more: seq<Field>)
    requires Plain(f.key) && NEWLINE !in f.value && f != other
    ensures Parse(OneLine(f.key, f.value) + after) != Some([other] + more)
  {
    ParseCons(f, after);
    if Parse(after).Some? {
      assert ([f] + Parse(after).value)[0] != ([other] + more)[0];
    }
  }

  lemma SameTail(head: seq<Field>, a: seq<Field>, b: seq<Field>)
    requires a != b
    ensures head + a != head + b
  {
    assert a == (head + a)[|head|..];
    assert b == (head + b)[|head|..];
  }

  /** If what follows is not read as `tail`, then nothing in front of it helps. */
  lemma {:induction false} BrokenTail(head: seq<Field>, bytes: seq<Byte>, tail: seq<Field>)
    requires AllPlain(head) && Parse(bytes) != Some(tail)
    ensures Parse(EncodeAll(head) + bytes) != Some(head + tail)
  {
    ReadBack(head, bytes);
    if Parse(bytes).Some? {
      SameTail(head, Parse(bytes).value, tail);
    }
  }

  lemma Regroup(a: seq<Byte>, b: seq<Byte>, c: seq<Byte>, d: seq<Byte>, e: seq<Byte>)
    ensures a + b + c + d + e == a + (b + (c + (d + e)))
  {
  }

  lemma RegroupFields(p: Field, i: Field, kvs: seq<Field>, tail: seq<Field>)
    ensures [p, i] + kvs + tail == [p] + ([i] + (kvs + tail))
  {
  }

  lemma {:induction false} BrokenIdentifier(r: Record)
    requires NEWLINE in r.ident
    ensures Parse(Formatted(r)) != Some(Expected(r))
  {
    var p, i := Field(PRIORITY, Priority(r.level)), Field(IDENTIFIER, r.ident);
    var pos := if r.position.Some? then OneLine(POSITION, r.position.value) else [];
    var message := Encode(Field(MESSAGE, r.message));
    var rest := EncodeAll(FieldsOf(r.kvs)) + (pos + message);
    Regroup(OneLine(PRIORITY, Priority(r.level)), OneLine(IDENTIFIER, r.ident),
            EncodeAll(FieldsOf(r.kvs)), pos, message);
    ExpectedSplit(r);
    RegroupFields(p, i, FieldsOf(r.kvs), Trailing(r));
    BrokenLine(IDENTIFIER, r.ident, rest, FieldsOf(r.kvs) + Trailing(r));
    EncodeSingle(p);
    BrokenTail([p], OneLine(IDENTIFIER, r.ident) + rest, [i] + (FieldsOf(r.kvs) + Trailing(r)));
  }

  lemma {:induction false} BrokenPosition(r: Record)
    requires NEWLINE !in r.ident && r.position.Some? && NEWLINE in r.position.value
    ensures Parse(Formatted(r)) != Some(Expected(r))
  {
    ExpectedSplit(r);
    FormattedSplit(r);
    BrokenLine(POSITION, r.position.value, Encode(Field(MESSAGE, r.message)), [Field(MESSAGE, r.message)]);
    BrokenTail(Leading(r), TrailingBytes(r), Trailing(r));
  }

  lemma ReadAll(fields: seq<Field>)
    requires AllPlain(fields)
    ensures Parse(EncodeAll(fields)) == Some(fields)
  {
    ReadBack(fields, []);
    Neutral(EncodeAll(fields));
    assert fields + [] == fields;
  }

  lemma FormattedIsEncoded(r: Record)
    requires LinesAreLines(r)
    ensures Formatted(r) == EncodeAll(Leading(r) + Trailing(r))
  {
    FormattedSplit(r);
    TrailingIsEncoded(r);
    EncodeAllAppend(Leading(r), Trailing(r));
  }

  lemma {:induction false} UnbrokenLines(r: Record)
    requires LinesAreLines(r)
    ensures Parse(Formatted(r)) == Some(Expected(r))
  {
    ExpectedSplit(r);
    FormattedIsEncoded(r);
    ReadAll(Leading(r) + Trailing(r));
  }

  /**
    The journal recovers exactly the sanitized keys and the original values, in order, if
    and only if the configured identifier and the code position contain no newline.
   */
  lemma {:induction false} FramingIff(r: Record)
    ensures Parse(Formatted(r)) == Some(Expected(r)) <==> LinesAreLines(r)
  {
    if LinesAreLines(r) {
      UnbrokenLines(r);
    } else if NEWLINE in r.ident {
      BrokenIdentifier(r);
    } else {
      BrokenPosition(r);
    }
  }
}
