/** The texts whose bytes a session result is measured in: UTF-8 and the JSON form (modules/shared/src/session-result.ts). */
module SessionResultText {
  import opened Options
  import opened SessionResult

  // UTF-8, section 3 of RFC 3629

  /** The scalar values of a UTF-16 text; a surrogate on its own is read as U+FFFD. */
  function Scalars(s: Text): seq<int> {
    if s == [] then []
    else if Pair(s) then [0x10000 + (s[0] - 0xD800) * 0x400 + (s[1] - 0xDC00)] + Scalars(s[2..])
    else [if High(s[0]) || Low(s[0]) then 0xFFFD else s[0]] + Scalars(s[1..])
  }

  function Encode(c: int): seq<int> {
    if c < 0x80 then [c]
    else if c < 0x800 then [0xC0 + c / 64, 0x80 + c % 64]
    else if c < 0x10000 then [0xE0 + c / 4096, 0x80 + c / 64 % 64, 0x80 + c % 64]
    else [0xF0 + c / 262144, 0x80 + c / 4096 % 64, 0x80 + c / 64 % 64, 0x80 + c % 64]
  }

  predicate Continues(b: int) { 0x80 <= b < 0xC0 }

  /** The scalar value of one encoded sequence; longer forms than necessary are not accepted. */
  function Decode(b: seq<int>): Option<int> {
    if |b| == 1 && 0 <= b[0] < 0x80 then Some(b[0])
    else if |b| == 2 && 0xC0 <= b[0] < 0xE0 && Continues(b[1]) then AtLeast(0x80, (b[0] - 0xC0) * 64 + b[1] - 0x80)
    else if |b| == 3 && 0xE0 <= b[0] < 0xF0 && Continues(b[1]) && Continues(b[2]) then
      AtLeast(0x800, (b[0] - 0xE0) * 4096 + (b[1] - 0x80) * 64 + b[2] - 0x80)
    else if |b| == 4 && 0xF0 <= b[0] < 0xF8 && Continues(b[1]) && Continues(b[2]) && Continues(b[3]) then
      AtLeast(0x10000, (b[0] - 0xF0) * 262144 + (b[1] - 0x80) * 4096 + (b[2] - 0x80) * 64 + b[3] - 0x80)
    else None
  }

  function AtLeast(least: int, c: int): Option<int> { if least <= c then Some(c) else None }

  lemma EncodeRoundTrip(c: int)
    requires 0 <= c < 0x110000
    ensures Decode(Encode(c)) == Some(c)
  {
    assert c == c / 64 * 64 + c % 64;
    assert c / 64 == c / 4096 * 64 + c / 64 % 64;
    assert c / 4096 == c / 262144 * 64 + c / 4096 % 64;
  }

  function Utf8(scalars: seq<int>): seq<int> {
    if scalars == [] then [] else Encode(scalars[0]) + Utf8(scalars[1..])
  }

  /** Only scalar values are encoded: no surrogate is left over. */
  lemma {:induction false} ScalarsInRange(s: Text)
    ensures forall k :: 0 <= k < |Scalars(s)| ==> 0 <= Scalars(s)[k] < 0x110000 && !(0xD800 <= Scalars(s)[k] <= 0xDFFF)
  {
    if s != [] {
      ScalarsInRange(if Pair(s) then s[2..] else s[1..]);
    }
  }

  /** The length the bounds are about is that of the UTF-8 form. */
  lemma {:induction false} BytesAreUtf8(s: Text)
    ensures |Utf8(Scalars(s))| == Bytes(s)
  {
    if s != [] {
      var rest := if Pair(s) then s[2..] else s[1..];
      BytesAreUtf8(rest);
      assert Scalars(s)[1..] == Scalars(rest);
    }
  }

  // JSON, section 25.5.2 of ECMA-262

  function Digit(n: int): Unit
    requires 0 <= n < 16
  {
    if n < 10 then 0x30 + n else 0x57 + n
  }

  function DigitValue(u: Unit): int { if u < 0x3A then u - 0x30 else u - 0x57 }

  function Short(u: Unit): Option<Unit> {
    if u == 0x22 || u == 0x5C then Some(u)
    else if u == 8 then Some(0x62)
    else if u == 9 then Some(0x74)
    else if u == 10 then Some(0x6E)
    else if u == 12 then Some(0x66)
    else if u == 13 then Some(0x72)
    else None
  }

  function EscapeUnit(u: Unit): Text {
    if Short(u).Some? then [0x5C, Short(u).value]
    else if u < 0x20 || High(u) || Low(u) then
      [0x5C, 0x75, Digit(u / 4096), Digit(u / 256 % 16), Digit(u / 16 % 16), Digit(u % 16)]
    else [u]
  }

  function Escape(s: Text): Text {
    if s == [] then [] else if Pair(s) then [s[0], s[1]] + Escape(s[2..]) else EscapeUnit(s[0]) + Escape(s[1..])
  }

  function Long(u: Unit): Unit {
    if u == 0x62 then 8 else if u == 0x74 then 9 else if u == 0x6E then 10 else if u == 0x66 then 12 else if u == 0x72 then 13 else u
  }

  function HexValue(a: Unit, b: Unit, c: Unit, d: Unit): int {
    DigitValue(a) * 4096 + DigitValue(b) * 256 + DigitValue(c) * 16 + DigitValue(d)
  }

  /** What a JSON parser reads between the quotes. */
  function Unescape(t: Text): seq<int> {
    if t == [] then []
    else if t[0] != 0x5C || |t| < 2 then [t[0]] + Unescape(t[1..])
    else if t[1] == 0x75 && |t| >= 6 then [HexValue(t[2], t[3], t[4], t[5])] + Unescape(t[6..])
    else [Long(t[1])] + Unescape(t[2..])
  }

  lemma HexRoundTrip(u: Unit)
    ensures HexValue(Digit(u / 4096), Digit(u / 256 % 16), Digit(u / 16 % 16), Digit(u % 16)) == u
  {
    assert u == u / 16 * 16 + u % 16;
    assert u / 16 == u / 256 * 16 + u / 16 % 16;
    assert u / 256 == u / 4096 * 16 + u / 256 % 16;
    assert forall n :: 0 <= n < 16 ==> DigitValue(Digit(n)) == n;
  }

  lemma UnescapeUnit(u: Unit, rest: Text)
    ensures Unescape(EscapeUnit(u) + rest) == [u as int] + Unescape(rest)
  {
    var t := EscapeUnit(u) + rest;
    assert t[|EscapeUnit(u)|..] == rest;
    HexRoundTrip(u);
  }

  /** Reading the escaped text gives the text back. */
  lemma {:induction false} EscapeRoundTrip(s: Text)
    ensures Unescape(Escape(s)) == s
  {
    hide EscapeUnit;
    if s != [] {
      if Pair(s) {
        EscapeRoundTrip(s[2..]);
        var rest := Escape(s[2..]);
        assert ([s[0], s[1]] + rest)[1..] == [s[1]] + rest && ([s[1]] + rest)[1..] == rest;
        assert s == [s[0]] + ([s[1]] + s[2..]);
      } else {
        EscapeRoundTrip(s[1..]);
        UnescapeUnit(s[0], Escape(s[1..]));
        assert s == [s[0]] + s[1..];
      }
    }
  }

  predicate NotLow(t: Text) { t == [] || !Low(t[0]) }

  lemma {:induction false} BytesConcat(a: Text, b: Text)
    requires NotLow(b)
    ensures Bytes(a + b) == Bytes(a) + Bytes(b)
  {
    if a == [] {
      assert a + b == b;
    } else if Pair(a) {
      BytesConcat(a[2..], b);
      assert (a + b)[2..] == a[2..] + b;
    } else {
      BytesConcat(a[1..], b);
      assert (a + b)[1..] == a[1..] + b;
    }
  }

  lemma PlainBytes(t: Text)
    requires forall k :: 0 <= k < |t| ==> t[k] < 0x80
    ensures Bytes(t) == |t|
  {
    if t != [] {
      PlainBytes(t[1..]);
    }
  }

  lemma UnitEscaped(u: Unit)
    ensures NotLow(EscapeUnit(u))
    ensures Bytes(EscapeUnit(u)) == if Short(u).Some? then 2 else if u < 0x20 || High(u) || Low(u) then 6 else UnitBytes(u)
  {
    var t := EscapeUnit(u);
    if Short(u).Some? || u < 0x20 || High(u) || Low(u) {
      PlainBytes(t);
    } else {
      assert t[1..] == [];
    }
  }

  lemma {:induction false} EscapedBytes(s: Text)
    ensures Bytes(Escape(s)) == Escaped(s) && NotLow(Escape(s))
  {
    hide EscapeUnit;
    if s != [] {
      if Pair(s) {
        EscapedBytes(s[2..]);
        BytesConcat([s[0], s[1]], Escape(s[2..]));
        assert [s[0], s[1]][2..] == [];
      } else {
        EscapedBytes(s[1..]);
        UnitEscaped(s[0]);
        BytesConcat(EscapeUnit(s[0]), Escape(s[1..]));
        assert EscapeUnit(s[0]) != [] by { UnitIsNotEmpty(s[0]); }
      }
    }
  }

  lemma UnitIsNotEmpty(u: Unit)
    ensures EscapeUnit(u) != []
  {
  }

  function Quote(s: Text): Text { [0x22] + Escape(s) + [0x22] }

  lemma QuotedBytes(s: Text)
    ensures Bytes(Quote(s)) == JsonString(s) && NotLow(Quote(s))
  {
    var q: Text := [0x22];
    EscapedBytes(s);
    BytesConcat(q, Escape(s));
    BytesConcat(q + Escape(s), q);
    assert q[1..] == [];
  }

  /** The code units of ASCII text. */
  function Units(s: string): Text {
    seq(|s|, k requires 0 <= k < |s| => if s[k] as int < 0x80 then s[k] as int else 0x3F)
  }

  function Concat(parts: seq<Text>): Text { if parts == [] then [] else parts[0] + Concat(parts[1..]) }

  function Total(parts: seq<Text>): nat { if parts == [] then 0 else Bytes(parts[0]) + Total(parts[1..]) }

  lemma {:induction false} ConcatBytes(parts: seq<Text>)
    requires forall k :: 0 <= k < |parts| ==> parts[k] != [] && NotLow(parts[k])
    ensures Bytes(Concat(parts)) == Total(parts) && NotLow(Concat(parts))
  {
    hide Bytes;
    if parts == [] {
      EmptyIsShort([]);
    } else {
      ConcatBytes(parts[1..]);
      BytesConcat(parts[0], Concat(parts[1..]));
    }
  }

  lemma {:induction false} TotalConcat(a: seq<Text>, b: seq<Text>)
    ensures Total(a + b) == Total(a) + Total(b)
  {
    hide Bytes;
    if a == [] {
      assert a + b == b;
    } else {
      TotalConcat(a[1..], b);
      assert (a + b)[1..] == a[1..] + b;
    }
  }

  lemma WordBytes(s: string)
    requires s != ""
    ensures Bytes(Units(s)) == |s| && Units(s) != [] && NotLow(Units(s))
  {
    PlainBytes(Units(s));
  }

  /** The names between the brackets. */
  function ListParts(files: seq<Text>): seq<Text> {
    if files == [] then []
    else ListParts(files[..|files| - 1]) + (if |files| > 1 then [Units(",")] else []) + [Quote(files[|files| - 1])]
  }

  ghost predicate Clean(parts: seq<Text>) { forall k :: 0 <= k < |parts| ==> parts[k] != [] && NotLow(parts[k]) }

  lemma One(t: Text)
    ensures Total([t]) == Bytes(t)
  {
    assert [t][1..] == [];
  }

  lemma {:induction false} ListPartsBytes(files: seq<Text>)
    ensures Clean(ListParts(files)) && Total(ListParts(files)) == ListBytes(files)
  {
    hide Bytes, Quote, JsonString;
    if files != [] {
      var init, last := files[..|files| - 1], files[|files| - 1];
      ListPartsBytes(init);
      QuotedBytes(last);
      WordBytes(",");
      One(Quote(last));
      One(Units(","));
      assert Quote(last) != [] by { QuoteIsNotEmpty(last); }
      var comma := if |files| > 1 then [Units(",")] else [];
      TotalConcat(ListParts(init), comma);
      TotalConcat(ListParts(init) + comma, [Quote(last)]);
    }
  }

  lemma QuoteIsNotEmpty(s: Text)
    ensures Quote(s) != []
  {
  }

  function Field(key: string, value: seq<Text>): seq<Text> {
    [Units(key)] + value
  }

  function OptionalField(key: string, value: Option<Text>): seq<Text> {
    if value.Some? then Field(key, [Quote(value.value)]) else []
  }

  function FlagField(key: string, flag: bool): seq<Text> {
    if flag then [Units(key)] else []
  }

  function FilesField(files: Option<seq<Text>>): seq<Text> {
    if files.Some? then Field(",\"filesChanged\":[", ListParts(files.value)) + [Units("]")] else []
  }

  function HeadParts(r: Result): seq<Text> {
    Field("{\"summary\":", [Quote(r.summary)])
    + Field(",\"summarySource\":", [Units(if r.source.Agent? then "\"agent\"" else "\"harness\"")])
    + FlagField(",\"summaryTruncated\":true", r.summaryTruncated)
  }

  function MiddleParts(r: Result): seq<Text> {
    OptionalField(",\"branch\":", r.branch) + OptionalField(",\"pullRequestUrl\":", r.url)
  }

  /** The flag of the files may also come before them; that makes no difference here. */
  function TailParts(r: Result): seq<Text> {
    FilesField(r.files) + FlagField(",\"filesChangedTruncated\":true", r.filesTruncated) + FlagField("}", true)
  }

  function Json(r: Result): Text { Concat(HeadParts(r) + MiddleParts(r) + TailParts(r)) }

  lemma FieldBytes(key: string, value: seq<Text>)
    requires key != "" && Clean(value)
    ensures Clean(Field(key, value)) && Total(Field(key, value)) == |key| + Total(value)
  {
    hide Bytes;
    WordBytes(key);
    assert Field(key, value)[1..] == value;
  }

  lemma QuotedField(key: string, value: Text)
    requires key != ""
    ensures Clean(Field(key, [Quote(value)])) && Total(Field(key, [Quote(value)])) == |key| + JsonString(value)
  {
    hide Bytes;
    QuotedBytes(value);
    QuoteIsNotEmpty(value);
    hide Quote, JsonString;
    One(Quote(value));
    FieldBytes(key, [Quote(value)]);
  }

  lemma SourceField(r: Result)
    ensures var parts := Field(",\"summarySource\":", [Units(if r.source.Agent? then "\"agent\"" else "\"harness\"")]);
            Clean(parts) && Total(parts) == 17 + if r.source.Agent? then 7 else 9
  {
    hide Bytes;
    var word := if r.source.Agent? then "\"agent\"" else "\"harness\"";
    WordBytes(word);
    One(Units(word));
    FieldBytes(",\"summarySource\":", [Units(word)]);
  }

  lemma FlagBytes(key: string, flag: bool)
    requires key != ""
    ensures Clean(FlagField(key, flag)) && Total(FlagField(key, flag)) == if flag then |key| else 0
  {
    hide Bytes;
    WordBytes(key);
    One(Units(key));
  }

  lemma FilesBytes(files: Option<seq<Text>>)
    ensures Clean(FilesField(files)) && Total(FilesField(files)) == if files.Some? then 18 + ListBytes(files.value) else 0
  {
    hide Bytes, ListParts, ListBytes;
    if files.Some? {
      ListPartsBytes(files.value);
      FieldBytes(",\"filesChanged\":[", ListParts(files.value));
      WordBytes("]");
      One(Units("]"));
      TotalConcat(Field(",\"filesChanged\":[", ListParts(files.value)), [Units("]")]);
    }
  }

  lemma Joined(a: seq<Text>, b: seq<Text>)
    requires Clean(a) && Clean(b)
    ensures Clean(a + b) && Total(a + b) == Total(a) + Total(b)
  {
    hide Bytes;
    TotalConcat(a, b);
  }

  lemma OptionalBytes(key: string, value: Option<Text>)
    requires key != ""
    ensures Clean(OptionalField(key, value))
    ensures Total(OptionalField(key, value)) == if value.Some? then |key| + JsonString(value.value) else 0
  {
    hide Bytes, Quote, JsonString;
    if value.Some? {
      QuotedField(key, value.value);
    }
  }

  lemma HeadBytes(r: Result)
    ensures Clean(HeadParts(r))
    ensures Total(HeadParts(r)) ==
            11 + JsonString(r.summary) + 17 + (if r.source.Agent? then 7 else 9) + (if r.summaryTruncated then 24 else 0)
  {
    hide Bytes, Quote, JsonString, Field, FlagField, Clean, Total;
    QuotedField("{\"summary\":", r.summary);
    SourceField(r);
    FlagBytes(",\"summaryTruncated\":true", r.summaryTruncated);
    var a := Field("{\"summary\":", [Quote(r.summary)]);
    var b := Field(",\"summarySource\":", [Units(if r.source.Agent? then "\"agent\"" else "\"harness\"")]);
    Joined(a, b);
    Joined(a + b, FlagField(",\"summaryTruncated\":true", r.summaryTruncated));
  }

  lemma MiddleBytes(r: Result)
    ensures Clean(MiddleParts(r))
    ensures Total(MiddleParts(r)) ==
            (if r.branch.Some? then 10 + JsonString(r.branch.value) else 0) + (if r.url.Some? then 18 + JsonString(r.url.value) else 0)
  {
    hide Bytes, JsonString, OptionalField, Clean, Total;
    OptionalBytes(",\"branch\":", r.branch);
    OptionalBytes(",\"pullRequestUrl\":", r.url);
    Joined(OptionalField(",\"branch\":", r.branch), OptionalField(",\"pullRequestUrl\":", r.url));
  }

  lemma TailBytes(r: Result)
    ensures Clean(TailParts(r))
    ensures Total(TailParts(r)) == (if r.files.Some? then 18 + ListBytes(r.files.value) else 0) + (if r.filesTruncated then 29 else 0) + 1
  {
    hide Bytes, ListBytes, FilesField, FlagField, Clean, Total;
    FilesBytes(r.files);
    FlagBytes(",\"filesChangedTruncated\":true", r.filesTruncated);
    FlagBytes("}", true);
    var a, b := FilesField(r.files), FlagField(",\"filesChangedTruncated\":true", r.filesTruncated);
    Joined(a, b);
    Joined(a + b, FlagField("}", true));
  }

  /** The budget is about the UTF-8 length of the JSON text. */
  lemma JsonBytesAreJson(r: Result)
    ensures Bytes(Json(r)) == JsonBytes(r)
  {
    hide Bytes, JsonString, ListBytes, HeadParts, MiddleParts, TailParts, Total, Concat;
    HeadBytes(r);
    MiddleBytes(r);
    TailBytes(r);
    Joined(HeadParts(r), MiddleParts(r));
    Joined(HeadParts(r) + MiddleParts(r), TailParts(r));
    ConcatBytes(HeadParts(r) + MiddleParts(r) + TailParts(r));
  }
}
