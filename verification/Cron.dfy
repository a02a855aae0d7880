/** Parsing of five-field cron expressions (modules/shared/src/cron.ts). */
module CronSyntax {
  import opened Options

  /** One parsed field. `any` records that some item was a star, stepped or not. */
  datatype Field = Field(any: bool, values: set<int>)

  datatype Cron = Cron(minute: Field, hour: Field, dayOfMonth: Field, month: Field, dayOfWeek: Field)

  /** JavaScript's `split` on a single character: always at least one part. */
  function Split(s: string, sep: char): (parts: seq<string>)
    ensures |parts| >= 1
  {
    if s == "" then [""]
    else
      var rest := Split(s[1..], sep);
      if s[0] == sep then [""] + rest else [[s[0]] + rest[0]] + rest[1..]
  }

  function Join(parts: seq<string>, sep: char): string
    requires |parts| >= 1
  {
    if |parts| == 1 then parts[0] else parts[0] + [sep] + Join(parts[1..], sep)
  }

  predicate Free(s: string, sep: char) { sep !in s }

  lemma {:induction false} SplitFree(s: string, sep: char)
    requires Free(s, sep)
    ensures Split(s, sep) == [s]
  {
    if s != "" {
      SplitFree(s[1..], sep);
      assert s == [s[0]] + s[1..];
    }
  }

  lemma {:induction false} SplitFirst(a: string, rest: string, sep: char)
    requires Free(a, sep)
    ensures Split(a + [sep] + rest, sep) == [a] + Split(rest, sep)
  {
    var whole := a + [sep] + rest;
    if a == "" {
      assert whole[1..] == rest;
    } else {
      SplitFirst(a[1..], rest, sep);
      assert whole[1..] == a[1..] + [sep] + rest;
      assert a == [a[0]] + a[1..];
    }
  }

  /** Splitting undoes joining whenever no part contains the separator. */
  lemma {:induction false} SplitJoin(parts: seq<string>, sep: char)
    requires |parts| >= 1
    requires forall i :: 0 <= i < |parts| ==> Free(parts[i], sep)
    ensures Split(Join(parts, sep), sep) == parts
  {
    if |parts| == 1 {
      SplitFree(parts[0], sep);
    } else {
      SplitJoin(parts[1..], sep);
      SplitFirst(parts[0], Join(parts[1..], sep), sep);
      assert parts == [parts[0]] + parts[1..];
    }
  }

  predicate Digits(s: string) {
    |s| > 0 && forall i :: 0 <= i < |s| ==> '0' <= s[i] <= '9'
  }

  function Decimal(s: string): int
    requires forall i :: 0 <= i < |s| ==> '0' <= s[i] <= '9'
  {
    if s == "" then 0 else 10 * Decimal(s[..|s| - 1]) + (s[|s| - 1] as int - '0' as int)
  }

  const MAX_SAFE_INTEGER: int := 9007199254740991

  function ParseInteger(s: string): Option<int> {
    if !Digits(s) then None
    else if Decimal(s) <= MAX_SAFE_INTEGER then Some(Decimal(s))
    else None
  }

  const DIGITS := "0123456789"

  lemma DigitMeans(c: char)
    ensures '0' <= c <= '9' <==> c in DIGITS
  {
    if '0' <= c <= '9' {
      assert DIGITS[c as int - '0' as int] == c;
    }
  }

  /** A number is one or more decimal digits whose value a JavaScript number holds exactly. */
  lemma IntegerMeans(s: string)
    ensures ParseInteger(s).Some? <==>
            s != "" && (forall i :: 0 <= i < |s| ==> s[i] in DIGITS) && (Digits(s) ==> Decimal(s) < 0x20_0000_0000_0000)
  {
    hide Decimal;
    forall i | 0 <= i < |s|
      ensures '0' <= s[i] <= '9' <==> s[i] in DIGITS
    {
      DigitMeans(s[i]);
    }
  }

  /** The range and step one comma-separated item stands for. */
  datatype Item = Item(star: bool, start: int, end: int, step: int)

  ghost predicate Within(it: Item, min: int, max: int) {
    min <= it.start <= it.end <= max && it.step >= 1
  }

  function ParseRange(range: seq<string>, step: int, stepped: bool, min: int, max: int): (it: Option<Item>)
    requires |range| >= 1 && step >= 1
    ensures it.Some? ==> Within(it.value, min, max) && !it.value.star
  {
    if |range| > 2 || (exists i :: 0 <= i < |range| && |range[i]| == 0) then None
    else
      var low := ParseInteger(range[0]);
      var high := if |range| == 1 then low else ParseInteger(range[1]);
      if low.None? || high.None? || low.value < min || high.value > max || low.value > high.value then None
      else if stepped && |range| == 1 then None
      else Some(Item(false, low.value, high.value, step))
  }

  function ParseItem(item: string, min: int, max: int): (it: Option<Item>)
    requires min <= max
    ensures it.Some? ==> Within(it.value, min, max)
  {
    var stepParts := Split(item, '/');
    if |stepParts| > 2 || (exists i :: 0 <= i < |stepParts| && |stepParts[i]| == 0) then None
    else
      var step := if |stepParts| == 1 then Some(1) else ParseInteger(stepParts[1]);
      if step.None? || step.value < 1 then None
      else if stepParts[0] == "*" then Some(Item(true, min, max, step.value))
      else ParseRange(Split(stepParts[0], '-'), step.value, |stepParts| == 2, min, max)
  }

  /** `start`, `start + step`, ... up to `end`. */
  function Progression(start: int, end: int, step: int): set<int>
    requires step >= 1
    decreases end - start
  {
    if start > end then {} else {start} + Progression(start + step, end, step)
  }

  predicate OnStep(v: int, start: int, end: int, step: int)
    requires step >= 1
  {
    start <= v <= end && (v - start) % step == 0
  }

  /** A value is selected exactly when it lies in the range at a multiple of the step from its start. */
  lemma {:induction false} ProgressionMembers(start: int, end: int, step: int)
    requires step >= 1
    ensures forall v :: v in Progression(start, end, step) <==> OnStep(v, start, end, step)
    decreases end - start
  {
    if start <= end {
      ProgressionMembers(start + step, end, step);
      forall v
        ensures v in Progression(start, end, step) <==> OnStep(v, start, end, step)
      {
        assert v in Progression(start + step, end, step) <==> OnStep(v, start + step, end, step);
        if start <= v {
          StepBack(v - start, step);
        }
      }
    }
  }

  lemma StepBack(d: int, n: int)
    requires n >= 1 && d >= 0
    ensures d % n == 0 <==> d == 0 || (d >= n && (d - n) % n == 0)
  {
    var q, r := d / n, d % n;
    assert d == n * q + r;
    if d >= n {
      SameRemainder(d - n, n, q - 1, r);
    } else {
      SameRemainder(d, n, 0, d);
    }
  }

  lemma SameRemainder(a: int, n: int, q: int, r: int)
    requires n >= 1 && 0 <= r < n && a == n * q + r
    ensures a % n == r
  {
    var q', r' := a / n, a % n;
    assert n * (q - q') == r' - r;
    assert q - q' >= 1 ==> n * (q - q') >= n;
    assert q - q' <= -1 ==> n * (q - q') <= -n;
  }

  function Values(it: Item): set<int>
    requires it.step >= 1
  {
    Progression(it.start, it.end, it.step)
  }

  /** Items folded left to right; the first one that does not parse rejects the field. */
  function FoldItems(items: seq<string>, min: int, max: int): Option<Field>
    requires min <= max
  {
    if |items| == 0 then Some(Field(false, {}))
    else
      var before := FoldItems(items[..|items| - 1], min, max);
      var it := ParseItem(items[|items| - 1], min, max);
      if before.None? || it.None? then None
      else Some(Field(before.value.any || it.value.star, before.value.values + Values(it.value)))
  }

  function FieldOf(source: string, min: int, max: int): Option<Field>
    requires min <= max
  {
    FoldItems(Split(source, ','), min, max)
  }

  ghost predicate AllParse(items: seq<string>, min: int, max: int)
    requires min <= max
  {
    forall i :: 0 <= i < |items| ==> ParseItem(items[i], min, max).Some?
  }

  ghost predicate Selects(item: string, min: int, max: int, v: int)
    requires min <= max
  {
    var it := ParseItem(item, min, max);
    it.Some? && OnStep(v, it.value.start, it.value.end, it.value.step)
  }

  ghost predicate StarItem(item: string, min: int, max: int)
    requires min <= max
  {
    var it := ParseItem(item, min, max);
    it.Some? && it.value.star
  }

  /** A field is accepted exactly when all its items are. */
  lemma {:induction false} FoldAccepts(items: seq<string>, min: int, max: int)
    requires min <= max
    ensures FoldItems(items, min, max).Some? <==> AllParse(items, min, max)
  {
    if |items| > 0 {
      FoldAccepts(items[..|items| - 1], min, max);
    }
  }

  /** An accepted field holds exactly the values some item selects. */
  lemma {:induction false} FoldSelects(items: seq<string>, min: int, max: int, v: int)
    requires min <= max && FoldItems(items, min, max).Some?
    ensures v in FoldItems(items, min, max).value.values <==>
            exists i :: 0 <= i < |items| && Selects(items[i], min, max, v)
  {
    if |items| > 0 {
      var init, last := items[..|items| - 1], items[|items| - 1];
      FoldSelects(init, min, max, v);
      var it := ParseItem(last, min, max).value;
      assert v in Values(it) <==> Selects(last, min, max, v) by {
        ProgressionMembers(it.start, it.end, it.step);
      }
      if i :| 0 <= i < |items| && Selects(items[i], min, max, v) {
        assert i < |init| ==> Selects(init[i], min, max, v);
      }
    }
  }

  /** Its `any` flag is set exactly when some item is a star, with or without a step. */
  lemma {:induction false} FoldStars(items: seq<string>, min: int, max: int)
    requires min <= max && FoldItems(items, min, max).Some?
    ensures FoldItems(items, min, max).value.any <==> exists i :: 0 <= i < |items| && StarItem(items[i], min, max)
  {
    if |items| > 0 {
      var init := items[..|items| - 1];
      FoldStars(init, min, max);
      if i :| 0 <= i < |items| && StarItem(items[i], min, max) {
        assert i < |init| ==> StarItem(init[i], min, max);
      }
    }
  }

  lemma {:induction false} FoldPrefix(items: seq<string>, i: nat, min: int, max: int)
    requires min <= max && i <= |items|
    requires FoldItems(items[..i], min, max).None?
    ensures FoldItems(items, min, max).None?
    decreases |items| - i
  {
    if i == |items| {
      assert items[..i] == items;
    } else {
      assert items[..i + 1][..i] == items[..i];
      FoldPrefix(items, i + 1, min, max);
    }
  }

  method AddValues(values: set<int>, it: Item) returns (r: set<int>)
    requires it.step >= 1
    ensures r == values + Values(it)
  {
    r := values;
    var value := it.start;
    while value <= it.end
      invariant r + Progression(value, it.end, it.step) == values + Values(it)
    {
      r := r + {value};
      value := value + it.step;
    }
  }

  method ParseField(source: string, min: int, max: int) returns (f: Option<Field>)
    requires min <= max
    ensures f == FieldOf(source, min, max)
  {
    var values: set<int> := {};
    var any := false;
    var items := Split(source, ',');
    for i := 0 to |items|
      invariant FoldItems(items[..i], min, max) == Some(Field(any, values))
    {
      var it := ParseItem(items[i], min, max);
      assert items[..i + 1][..i] == items[..i];
      if it.None? {
        FoldPrefix(items, i + 1, min, max);
        return None;
      }
      if it.value.star {
        any := true;
      }
      values := AddValues(values, it.value);
    }
    assert items[..|items|] == items;
    return Some(Field(any, values));
  }

  function CronOf(expression: string): Option<Cron> {
    var f := Split(expression, ' ');
    if |f| != 5 || (exists i :: 0 <= i < |f| && |f[i]| == 0) then None
    else
      var minute := FieldOf(f[0], 0, 59);
      var hour := FieldOf(f[1], 0, 23);
      var dayOfMonth := FieldOf(f[2], 1, 31);
      var month := FieldOf(f[3], 1, 12);
      var dayOfWeek := FieldOf(f[4], 0, 6);
      if minute.None? || hour.None? || dayOfMonth.None? || month.None? || dayOfWeek.None? then None
      else Some(Cron(minute.value, hour.value, dayOfMonth.value, month.value, dayOfWeek.value))
  }

  method ParseCron(expression: string) returns (c: Option<Cron>)
    ensures c == CronOf(expression)
  {
    var f := Split(expression, ' ');
    if |f| != 5 || (exists i :: 0 <= i < |f| && |f[i]| == 0) {
      return None;
    }
    var minute := ParseField(f[0], 0, 59);
    var hour := ParseField(f[1], 0, 23);
    var dayOfMonth := ParseField(f[2], 1, 31);
    var month := ParseField(f[3], 1, 12);
    var dayOfWeek := ParseField(f[4], 0, 6);
    if minute.None? || hour.None? || dayOfMonth.None? || month.None? || dayOfWeek.None? {
      return None;
    }
    return Some(Cron(minute.value, hour.value, dayOfMonth.value, month.value, dayOfWeek.value));
  }

  ghost predicate FieldWithin(f: Field, min: int, max: int) {
    f.values != {} && forall v :: v in f.values ==> min <= v <= max
  }

  ghost predicate WellFormed(c: Cron) {
    && FieldWithin(c.minute, 0, 59)
    && FieldWithin(c.hour, 0, 23)
    && FieldWithin(c.dayOfMonth, 1, 31)
    && FieldWithin(c.month, 1, 12)
    && FieldWithin(c.dayOfWeek, 0, 6)
  }

  lemma FieldIsWithin(source: string, min: int, max: int)
    requires min <= max && FieldOf(source, min, max).Some?
    ensures FieldWithin(FieldOf(source, min, max).value, min, max)
  {
    var items := Split(source, ',');
    FoldAccepts(items, min, max);
    var it := ParseItem(items[0], min, max).value;
    assert Selects(items[0], min, max, it.start) by {
      assert (it.start - it.start) % it.step == 0;
    }
    FoldSelects(items, min, max, it.start);
    forall v | v in FieldOf(source, min, max).value.values
      ensures min <= v <= max
    {
      FoldSelects(items, min, max, v);
    }
  }

  /** Every accepted expression has five non-empty fields inside their ranges. */
  lemma ParsedIsWellFormed(expression: string)
    requires CronOf(expression).Some?
    ensures WellFormed(CronOf(expression).value)
  {
    var f := Split(expression, ' ');
    FieldIsWithin(f[0], 0, 59);
    FieldIsWithin(f[1], 0, 23);
    FieldIsWithin(f[2], 1, 31);
    FieldIsWithin(f[3], 1, 12);
    FieldIsWithin(f[4], 0, 6);
  }

  // ---- Spelling: the accepted expressions are exactly those of the grammar, with their intended meaning. ----

  /** Numbers are spelled by any digits, leading zeros included. */
  datatype ItemSyntax =
    | Star
    | StarEvery(n: string)
    | One(v: string)
    | Span(a: string, b: string)
    | SpanEvery(a: string, b: string, n: string)

  function PrintItem(i: ItemSyntax): string {
    match i
    case Star => "*"
    case StarEvery(n) => "*" + ['/'] + n
    case One(v) => v
    case Span(a, b) => a + ['-'] + b
    case SpanEvery(a, b, n) => (a + ['-'] + b) + ['/'] + n
  }

  predicate Numeral(s: string, min: int, max: int) {
    Digits(s) && min <= Decimal(s) <= max && Decimal(s) <= MAX_SAFE_INTEGER
  }

  predicate SpanInRange(a: string, b: string, min: int, max: int) {
    Numeral(a, min, max) && Numeral(b, min, max) && Decimal(a) <= Decimal(b)
  }

  predicate ItemInRange(i: ItemSyntax, min: int, max: int) {
    match i
    case Star => true
    case StarEvery(n) => Numeral(n, 1, MAX_SAFE_INTEGER)
    case One(v) => Numeral(v, min, max)
    case Span(a, b) => SpanInRange(a, b, min, max)
    case SpanEvery(a, b, n) => SpanInRange(a, b, min, max) && Numeral(n, 1, MAX_SAFE_INTEGER)
  }

  function ItemMeaning(i: ItemSyntax, min: int, max: int): Item
    requires ItemInRange(i, min, max)
  {
    match i
    case Star => Item(true, min, max, 1)
    case StarEvery(n) => Item(true, min, max, Decimal(n))
    case One(v) => Item(false, Decimal(v), Decimal(v), 1)
    case Span(a, b) => Item(false, Decimal(a), Decimal(b), 1)
    case SpanEvery(a, b, n) => Item(false, Decimal(a), Decimal(b), Decimal(n))
  }

  lemma DigitsFree(s: string, sep: char)
    requires Digits(s) && !('0' <= sep <= '9')
    ensures Free(s, sep)
  {
  }

  lemma SplitOnce(a: string, b: string, sep: char)
    requires Free(a, sep) && Free(b, sep)
    ensures Split(a + [sep] + b, sep) == [a, b]
  {
    SplitFirst(a, b, sep);
    SplitFree(b, sep);
  }

  lemma RangeRoundTrip(a: string, b: string, step: int, stepped: bool, min: int, max: int)
    requires SpanInRange(a, b, min, max) && step >= 1
    ensures Split(a + ['-'] + b, '-') == [a, b]
    ensures ParseRange([a, b], step, stepped, min, max) == Some(Item(false, Decimal(a), Decimal(b), step))
  {
    hide Decimal;
    DigitsFree(a, '-');
    DigitsFree(b, '-');
    SplitOnce(a, b, '-');
  }

  lemma ItemRoundTrip(i: ItemSyntax, min: int, max: int)
    requires min <= max && ItemInRange(i, min, max)
    ensures ParseItem(PrintItem(i), min, max) == Some(ItemMeaning(i, min, max))
  {
    hide ParseRange, Decimal;
    match i
    case Star =>
      SplitFree("*", '/');
    case StarEvery(n) =>
      DigitsFree(n, '/');
      SplitOnce("*", n, '/');
    case One(v) =>
      DigitsFree(v, '/');
      SplitFree(v, '/');
      SingleRoundTrip(v, min, max);
    case Span(a, b) =>
      DigitsFree(a, '/');
      DigitsFree(b, '/');
      SplitFree(PrintItem(i), '/');
      RangeRoundTrip(a, b, 1, false, min, max);
      assert '-' in PrintItem(i);
    case SpanEvery(a, b, n) =>
      var range := a + ['-'] + b;
      DigitsFree(a, '/');
      DigitsFree(b, '/');
      DigitsFree(n, '/');
      SplitOnce(range, n, '/');
      RangeRoundTrip(a, b, Decimal(n), true, min, max);
      assert '-' in range;
  }

  lemma SingleRoundTrip(v: string, min: int, max: int)
    requires Numeral(v, min, max)
    ensures Split(v, '-') == [v] && v != "*" && |v| > 0
    ensures ParseRange([v], 1, false, min, max) == Some(Item(false, Decimal(v), Decimal(v), 1))
  {
    DigitsFree(v, '-');
    SplitFree(v, '-');
    DigitsFree(v, '*');
  }

  /** Joining undoes splitting, and no part contains the separator. */
  lemma {:induction false} JoinSplit(s: string, sep: char)
    ensures Join(Split(s, sep), sep) == s
    ensures forall i :: 0 <= i < |Split(s, sep)| ==> Free(Split(s, sep)[i], sep)
  {
    if s != "" {
      JoinSplit(s[1..], sep);
      var rest := Split(s[1..], sep);
      assert s == [s[0]] + s[1..];
      if s[0] == sep {
        assert ([""] + rest)[1..] == rest;
      } else if |rest| > 1 {
        assert ([[s[0]] + rest[0]] + rest[1..])[1..] == rest[1..];
      }
    }
  }

  lemma JoinTwo(parts: seq<string>, sep: char)
    requires |parts| == 2
    ensures Join(parts, sep) == parts[0] + [sep] + parts[1]
  {
    assert parts[1..] == [parts[1]];
  }

  lemma AcceptedRange(source: string, step: int, stepped: bool, min: int, max: int)
    requires step >= 1 && ParseRange(Split(source, '-'), step, stepped, min, max).Some?
    ensures var range := Split(source, '-');
            if |range| == 1 then !stepped && range[0] == source && Numeral(source, min, max)
            else |range| == 2 && source == range[0] + ['-'] + range[1] && SpanInRange(range[0], range[1], min, max)
  {
    hide Decimal;
    var range := Split(source, '-');
    JoinSplit(source, '-');
    if |range| == 2 {
      JoinTwo(range, '-');
    }
  }

  /** Every accepted item is spelled by the grammar. */
  lemma AcceptedItem(item: string, min: int, max: int) returns (i: ItemSyntax)
    requires min <= max && ParseItem(item, min, max).Some?
    ensures ItemInRange(i, min, max) && PrintItem(i) == item
  {
    hide Decimal, ParseRange;
    var parts := Split(item, '/');
    JoinSplit(item, '/');
    if |parts| == 2 {
      JoinTwo(parts, '/');
    }
    if parts[0] == "*" {
      return if |parts| == 1 then Star else StarEvery(parts[1]);
    }
    var range := Split(parts[0], '-');
    AcceptedRange(parts[0], if |parts| == 1 then 1 else Decimal(parts[1]), |parts| == 2, min, max);
    if |range| == 1 {
      return One(item);
    }
    return if |parts| == 1 then Span(range[0], range[1]) else SpanEvery(range[0], range[1], parts[1]);
  }

  function PrintItems(items: seq<ItemSyntax>): seq<string> {
    seq(|items|, i requires 0 <= i < |items| => PrintItem(items[i]))
  }

  function PrintField(items: seq<ItemSyntax>): string
    requires |items| >= 1
  {
    Join(PrintItems(items), ',')
  }

  predicate FieldInRange(items: seq<ItemSyntax>, min: int, max: int) {
    |items| >= 1 && forall i :: 0 <= i < |items| ==> ItemInRange(items[i], min, max)
  }

  function FieldMeaning(items: seq<ItemSyntax>, min: int, max: int): Field
    requires forall i :: 0 <= i < |items| ==> ItemInRange(items[i], min, max)
  {
    if |items| == 0 then Field(false, {})
    else
      var before := FieldMeaning(items[..|items| - 1], min, max);
      var it := ItemMeaning(items[|items| - 1], min, max);
      assert ItemInRange(items[|items| - 1], min, max);
      Field(before.any || it.star, before.values + Values(it))
  }

  predicate Plain(s: string) { Free(s, ',') && Free(s, ' ') }

  lemma PrintedItemIsPlain(i: ItemSyntax, min: int, max: int)
    requires ItemInRange(i, min, max)
    ensures Plain(PrintItem(i)) && |PrintItem(i)| > 0
  {
    hide Decimal;
  }

  lemma {:induction false} FoldPrinted(items: seq<ItemSyntax>, min: int, max: int)
    requires min <= max
    requires forall i :: 0 <= i < |items| ==> ItemInRange(items[i], min, max)
    ensures FoldItems(PrintItems(items), min, max) == Some(FieldMeaning(items, min, max))
  {
    hide ParseItem, PrintItem;
    if |items| > 0 {
      var init := items[..|items| - 1];
      FoldPrinted(init, min, max);
      ItemRoundTrip(items[|items| - 1], min, max);
      assert PrintItems(items)[..|items| - 1] == PrintItems(init);
    }
  }

  lemma FieldRoundTrip(items: seq<ItemSyntax>, min: int, max: int)
    requires min <= max && FieldInRange(items, min, max)
    ensures FieldOf(PrintField(items), min, max) == Some(FieldMeaning(items, min, max))
  {
    hide FoldItems, PrintItem, Free;
    forall i | 0 <= i < |items|
      ensures Free(PrintItems(items)[i], ',')
    {
      PrintedItemIsPlain(items[i], min, max);
    }
    SplitJoin(PrintItems(items), ',');
    FoldPrinted(items, min, max);
  }

  lemma {:induction false} JoinIsFree(parts: seq<string>, sep: char, c: char)
    requires |parts| >= 1 && sep != c
    requires forall i :: 0 <= i < |parts| ==> Free(parts[i], c) && |parts[i]| > 0
    ensures Free(Join(parts, sep), c) && |Join(parts, sep)| > 0
  {
    if |parts| > 1 {
      JoinIsFree(parts[1..], sep, c);
    }
  }

  lemma FieldIsFree(items: seq<ItemSyntax>, min: int, max: int)
    requires FieldInRange(items, min, max)
    ensures Free(PrintField(items), ' ') && |PrintField(items)| > 0
  {
    hide PrintItem, Free;
    forall i | 0 <= i < |items|
      ensures Free(PrintItems(items)[i], ' ') && |PrintItems(items)[i]| > 0
    {
      PrintedItemIsPlain(items[i], min, max);
    }
    JoinIsFree(PrintItems(items), ',', ' ');
  }

  datatype CronSource = CronSource(minute: seq<ItemSyntax>, hour: seq<ItemSyntax>, dayOfMonth: seq<ItemSyntax>,
                                   month: seq<ItemSyntax>, dayOfWeek: seq<ItemSyntax>)

  predicate InRange(c: CronSource) {
    && FieldInRange(c.minute, 0, 59) && FieldInRange(c.hour, 0, 23) && FieldInRange(c.dayOfMonth, 1, 31)
    && FieldInRange(c.month, 1, 12) && FieldInRange(c.dayOfWeek, 0, 6)
  }

  function PrintCron(c: CronSource): string
    requires InRange(c)
  {
    Join([PrintField(c.minute), PrintField(c.hour), PrintField(c.dayOfMonth), PrintField(c.month),
          PrintField(c.dayOfWeek)], ' ')
  }

  lemma CronRoundTrip(c: CronSource)
    requires InRange(c)
    ensures CronOf(PrintCron(c)) ==
            Some(Cron(FieldMeaning(c.minute, 0, 59), FieldMeaning(c.hour, 0, 23), FieldMeaning(c.dayOfMonth, 1, 31),
                      FieldMeaning(c.month, 1, 12), FieldMeaning(c.dayOfWeek, 0, 6)))
  {
    hide FieldOf, PrintField, FieldMeaning, ItemInRange, Free, Join;
    var parts := [PrintField(c.minute), PrintField(c.hour), PrintField(c.dayOfMonth), PrintField(c.month),
                  PrintField(c.dayOfWeek)];
    FieldIsFree(c.minute, 0, 59);
    FieldIsFree(c.hour, 0, 23);
    FieldIsFree(c.dayOfMonth, 1, 31);
    FieldIsFree(c.month, 1, 12);
    FieldIsFree(c.dayOfWeek, 0, 6);
    SplitJoin(parts, ' ');
    FieldRoundTrip(c.minute, 0, 59);
    FieldRoundTrip(c.hour, 0, 23);
    FieldRoundTrip(c.dayOfMonth, 1, 31);
    FieldRoundTrip(c.month, 1, 12);
    FieldRoundTrip(c.dayOfWeek, 0, 6);
  }

  lemma {:induction false} AcceptedItems(items: seq<string>, min: int, max: int) returns (spelt: seq<ItemSyntax>)
    requires min <= max && AllParse(items, min, max)
    ensures PrintItems(spelt) == items && forall i :: 0 <= i < |spelt| ==> ItemInRange(spelt[i], min, max)
  {
    hide ParseItem, PrintItem, ItemInRange;
    if items == [] {
      return [];
    }
    var first := AcceptedItem(items[0], min, max);
    assert AllParse(items[1..], min, max);
    var rest := AcceptedItems(items[1..], min, max);
    spelt := [first] + rest;
    assert items == [items[0]] + items[1..];
  }

  lemma AcceptedField(source: string, min: int, max: int) returns (spelt: seq<ItemSyntax>)
    requires min <= max && FieldOf(source, min, max).Some?
    ensures FieldInRange(spelt, min, max) && PrintField(spelt) == source
  {
    hide ParseItem, PrintItem, ItemInRange, FoldItems;
    FoldAccepts(Split(source, ','), min, max);
    spelt := AcceptedItems(Split(source, ','), min, max);
    JoinSplit(source, ',');
  }

  /** An expression is accepted exactly when the grammar spells it. */
  lemma AcceptedIffSpelt(expression: string)
    ensures CronOf(expression).Some? <==> exists c: CronSource :: InRange(c) && PrintCron(c) == expression
  {
    hide FieldOf, PrintField, FieldMeaning, FieldInRange;
    if CronOf(expression).Some? {
      var f := Split(expression, ' ');
      JoinSplit(expression, ' ');
      var minute := AcceptedField(f[0], 0, 59);
      var hour := AcceptedField(f[1], 0, 23);
      var dayOfMonth := AcceptedField(f[2], 1, 31);
      var month := AcceptedField(f[3], 1, 12);
      var dayOfWeek := AcceptedField(f[4], 0, 6);
      var c := CronSource(minute, hour, dayOfMonth, month, dayOfWeek);
      assert f == [f[0], f[1], f[2], f[3], f[4]];
      assert InRange(c) && PrintCron(c) == expression;
    }
    if c: CronSource :| InRange(c) && PrintCron(c) == expression {
      CronRoundTrip(c);
    }
  }
}
