/** Bounded session results (modules/shared/src/session-result.ts). */
module SessionResult {
  import opened Options
  import opened Sorting

  /** A UTF-16 code unit; texts are sequences of them. */
  type Unit = x: nat | x < 0x10000

  type Text = seq<Unit>

  const MAX_BYTES := 32 * 1024
  const MAX_SUMMARY := 4 * 1024
  const MAX_BRANCH := 1024
  const MAX_URL := 2 * 1024
  const MAX_FILES := 256
  const MAX_FILE := 4 * 1024

  predicate High(u: Unit) { 0xD800 <= u < 0xDC00 }

  predicate Low(u: Unit) { 0xDC00 <= u < 0xE000 }

  predicate Pair(s: Text) { |s| >= 2 && High(s[0]) && Low(s[1]) }

  /** A surrogate on its own is encoded as the replacement character, in three bytes. */
  function UnitBytes(u: Unit): nat { if u < 0x80 then 1 else if u < 0x800 then 2 else 3 }

  /** Length in UTF-8. */
  function Bytes(s: Text): nat {
    if s == [] then 0 else if Pair(s) then 4 + Bytes(s[2..]) else UnitBytes(s[0]) + Bytes(s[1..])
  }

  /** Every further code unit makes a text longer in UTF-8 too, even inside a surrogate pair. */
  lemma {:induction false} PrefixGrows(s: Text, n: nat)
    requires n < |s|
    ensures Bytes(s[..n]) < Bytes(s[..n + 1])
    decreases |s|
  {
    if n > 0 {
      if Pair(s) && n >= 2 {
        PrefixGrows(s[2..], n - 2);
        assert s[..n][2..] == s[2..][..n - 2] && s[..n + 1][2..] == s[2..][..n - 1];
      } else if !Pair(s) {
        PrefixGrows(s[1..], n - 1);
        assert s[..n][1..] == s[1..][..n - 1] && s[..n + 1][1..] == s[1..][..n];
      } else {
        assert s[..2][2..] == [] && s[..1][1..] == [];
      }
    }
  }

  lemma {:induction false} PrefixMonotone(s: Text, m: nat, n: nat)
    requires m <= n <= |s|
    ensures Bytes(s[..m]) + (n - m) <= Bytes(s[..n])
  {
    if m < n {
      PrefixMonotone(s, m, n - 1);
      PrefixGrows(s, n - 1);
    }
  }

  ghost predicate LongestPrefix(s: Text, limit: nat, r: Text) {
    && r <= s && Bytes(r) <= limit
    && forall n :: |r| < n <= |s| ==> Bytes(s[..n]) > limit
  }

  /** `truncate` returns the longest prefix that fits. */
  method Truncate(s: Text, limit: nat) returns (r: Text)
    ensures LongestPrefix(s, limit, r)
    ensures r == Truncated(s, limit)
  {
    TruncatedIsLongest(s, limit);
    if Bytes(s) <= limit {
      assert s[..|s|] == s;
      return s;
    }
    var end := if |s| <= limit then |s| else limit;
    forall n | end < n <= |s|
      ensures Bytes(s[..n]) > limit
    {
      PrefixMonotone(s, 0, n);
    }
    while end > 0 && Bytes(s[..end]) > limit
      invariant 0 <= end <= |s|
      invariant forall n :: end < n <= |s| ==> Bytes(s[..n]) > limit
    {
      end := end - 1;
    }
    r := s[..end];
    LongestUnique(s, limit, r, Truncated(s, limit));
  }

  ghost function Truncated(s: Text, limit: nat): Text { FitFrom(s, limit, |s|) }

  ghost function FitFrom(s: Text, limit: nat, n: nat): Text
    requires n <= |s|
  {
    if n == 0 || Bytes(s[..n]) <= limit then s[..n] else FitFrom(s, limit, n - 1)
  }

  lemma {:induction false} FitIsLongest(s: Text, limit: nat, n: nat)
    requires n <= |s| && forall m :: n < m <= |s| ==> Bytes(s[..m]) > limit
    ensures LongestPrefix(s, limit, FitFrom(s, limit, n))
  {
    if n > 0 && Bytes(s[..n]) > limit {
      FitIsLongest(s, limit, n - 1);
    }
  }

  lemma TruncatedIsLongest(s: Text, limit: nat)
    ensures LongestPrefix(s, limit, Truncated(s, limit))
  {
    FitIsLongest(s, limit, |s|);
  }

  lemma LongestUnique(s: Text, limit: nat, a: Text, b: Text)
    requires LongestPrefix(s, limit, a) && LongestPrefix(s, limit, b)
    ensures a == b
  {
    assert a == s[..|a|] && b == s[..|b|];
  }

  // File names

  /** JavaScript compares strings by code units. */
  predicate Less(a: Text, b: Text) {
    if b == [] then false else if a == [] then true else a[0] < b[0] || (a[0] == b[0] && Less(a[1..], b[1..]))
  }

  lemma {:induction false} LessIrreflexive(a: Text)
    ensures !Less(a, a)
  {
    if a != [] { LessIrreflexive(a[1..]); }
  }

  lemma {:induction false} LessTotal(a: Text, b: Text)
    ensures a == b || Less(a, b) || Less(b, a)
  {
    if a != [] && b != [] {
      LessTotal(a[1..], b[1..]);
      assert a == [a[0]] + a[1..] && b == [b[0]] + b[1..];
    }
  }

  lemma {:induction false} LessTransitive(a: Text, b: Text, c: Text)
    requires Less(a, b) && Less(b, c)
    ensures Less(a, c)
  {
    if a != [] && a[0] == b[0] == c[0] { LessTransitive(a[1..], b[1..], c[1..]); }
  }

  lemma LessIsTotalOrder()
    ensures TotalOrder(Less)
  {
    forall a: Text ensures !Less(a, a) { LessIrreflexive(a); }
    forall a: Text, b: Text ensures a == b || Less(a, b) || Less(b, a) { LessTotal(a, b); }
    forall a: Text, b: Text, c: Text | Less(a, b) && Less(b, c) ensures Less(a, c) { LessTransitive(a, b, c); }
  }

  /** The names collected so far, and whether one was dropped for its length. */
  datatype Files = Files(names: seq<Text>, oversized: bool)

  function AddFile(f: Files, candidate: Option<Text>): Files {
    if candidate.None? || candidate.value == [] then f
    else if Bytes(candidate.value) > MAX_FILE then f.(oversized := true)
    else if candidate.value in f.names then f
    else f.(names := f.names + [candidate.value])
  }

  /** Collecting stops as soon as the limit is reached. An entry that is not a string is `None`. */
  function Gather(candidates: seq<Option<Text>>): Files {
    if candidates == [] then Files([], false)
    else
      var before := Gather(candidates[..|candidates| - 1]);
      if |before.names| >= MAX_FILES then before else AddFile(before, candidates[|candidates| - 1])
  }

  lemma {:induction false} Gathered(candidates: seq<Option<Text>>)
    ensures var f := Gather(candidates);
            && Distinct(f.names) && |f.names| <= MAX_FILES && |f.names| <= |candidates|
            && (forall x :: x in f.names ==> Some(x) in candidates && x != [] && Bytes(x) <= MAX_FILE)
            && (!f.oversized && |candidates| <= MAX_FILES ==> forall x :: Some(x) in candidates && x != [] ==> x in f.names)
            && (|f.names| < MAX_FILES && !f.oversized ==> forall x :: Some(x) in candidates && x != [] ==> x in f.names)
  {
    hide Bytes;
    if candidates != [] {
      var n := |candidates| - 1;
      var init, last := candidates[..n], candidates[n];
      Gathered(init);
      assert candidates == init + [last];
      assert forall x :: Some(x) in candidates <==> Some(x) in init || Some(x) == last;
    }
  }

  // Results

  datatype Source = Agent | Harness

  /** A decoded JSON object: a field of the wrong type reads as absent, a flag counts only when it is `true`. */
  datatype Input = Input(
    summary: Option<Text>, source: Option<Source>, summaryTruncated: bool, branch: Option<Text>, url: Option<Text>,
    files: Option<seq<Option<Text>>>, filesTruncated: bool)

  datatype Result = Result(
    summary: Text, source: Source, summaryTruncated: bool, branch: Option<Text>, url: Option<Text>,
    files: Option<seq<Text>>, filesTruncated: bool)

  /** Bytes of a text inside a JSON string: quotes, backslashes, control characters and lone surrogates are escaped. */
  function Escaped(s: Text): nat {
    if s == [] then 0
    else if Pair(s) then 4 + Escaped(s[2..])
    else
      (if s[0] == 0x22 || s[0] == 0x5C || s[0] == 8 || s[0] == 9 || s[0] == 10 || s[0] == 12 || s[0] == 13 then 2
       else if s[0] < 0x20 || High(s[0]) || Low(s[0]) then 6
       else UnitBytes(s[0])) + Escaped(s[1..])
  }

  function JsonString(s: Text): nat { 2 + Escaped(s) }

  function ListBytes(files: seq<Text>): nat {
    if files == [] then 0 else ListBytes(files[..|files| - 1]) + JsonString(files[|files| - 1]) + if |files| > 1 then 1 else 0
  }

  /** Bytes of the JSON text of a result. */
  function JsonBytes(r: Result): nat {
    11 + JsonString(r.summary) + 17 + (if r.source.Agent? then 7 else 9) + (if r.summaryTruncated then 24 else 0)
    + (if r.branch.Some? then 10 + JsonString(r.branch.value) else 0)
    + (if r.url.Some? then 18 + JsonString(r.url.value) else 0)
    + (if r.files.Some? then 18 + ListBytes(r.files.value) else 0)
    + (if r.filesTruncated then 29 else 0) + 1
  }

  predicate HasFiles(r: Result) { r.files.Some? && r.files.value != [] }

  function DropLast(r: Result): Result
    requires HasFiles(r)
  {
    r.(files := Some(r.files.value[..|r.files.value| - 1]), filesTruncated := true)
  }

  function Shed(r: Result): Result
    decreases if r.files.Some? then |r.files.value| else 0
  {
    if JsonBytes(r) > MAX_BYTES && HasFiles(r) then Shed(DropLast(r)) else r
  }

  predicate BranchKept(branch: Option<Text>) { branch.Some? && branch.value != [] && Bytes(branch.value) <= MAX_BRANCH }

  predicate UrlKept(url: Option<Text>, valid: Text -> bool) { url.Some? && Bytes(url.value) <= MAX_URL && valid(url.value) }

  /** Everything but the shedding of files. */
  ghost function Bounded(i: Input, valid: Text -> bool): Result
    requires i.summary.Some? && i.source.Some?
  {
    var s := i.summary.value;
    var f := if i.files.Some? then Gather(i.files.value) else Files([], false);
    Result(
      Truncated(s, MAX_SUMMARY), i.source.value, Bytes(s) > MAX_SUMMARY || i.summaryTruncated,
      if BranchKept(i.branch) then i.branch else None,
      if UrlKept(i.url, valid) then i.url else None,
      if i.files.Some? && (f.names != [] || i.files.value == []) then Some(Sort(f.names, Less)) else None,
      i.files.Some? && (f.oversized || |i.files.value| > MAX_FILES || i.filesTruncated))
  }

  predicate Usable(i: Input) { i.summary.Some? && i.summary.value != [] && i.source.Some? }

  ghost function Normalized(i: Option<Input>, valid: Text -> bool): Option<Result> {
    if i.Some? && Usable(i.value) then Some(Shed(Bounded(i.value, valid))) else None
  }

  method GatherFiles(candidates: seq<Option<Text>>) returns (f: Files)
    ensures f == Gather(candidates)
  {
    f := Files([], false);
    var n := 0;
    while n < |candidates|
      invariant 0 <= n <= |candidates| && f == Gather(candidates[..n]) && |f.names| <= MAX_FILES
    {
      hide AddFile, Bytes;
      if |f.names| >= MAX_FILES {
        StoppedEarly(candidates, n);
        return;
      }
      var c := candidates[n];
      assert candidates[..n + 1][..n] == candidates[..n];
      Gathered(candidates[..n + 1]);
      n := n + 1;
      f := AddFile(f, c);
    }
    assert candidates[..n] == candidates;
  }

  lemma {:induction false} StoppedEarly(candidates: seq<Option<Text>>, n: nat)
    requires n <= |candidates| && |Gather(candidates[..n]).names| >= MAX_FILES
    ensures Gather(candidates) == Gather(candidates[..n])
    decreases |candidates|
  {
    if n == |candidates| {
      assert candidates[..n] == candidates;
    } else {
      var init := candidates[..|candidates| - 1];
      assert init[..n] == candidates[..n];
      StoppedEarly(init, n);
    }
  }

  method NormalizeSessionResult(i: Option<Input>, valid: Text -> bool) returns (r: Option<Result>)
    ensures r == Normalized(i, valid)
  {
    hide Bytes, Sort, Gather, JsonBytes, Truncated;
    if i.None? || i.value.source.None? || i.value.summary.None? {
      return None;
    }
    var input := i.value;
    var summary := Truncate(input.summary.value, MAX_SUMMARY);
    NonEmptyPrefix(input.summary.value, MAX_SUMMARY);
    if summary == [] {
      return None;
    }
    var result := Result(summary, input.source.value, false, None, None, None, false);
    if Bytes(input.summary.value) > MAX_SUMMARY || input.summaryTruncated {
      result := result.(summaryTruncated := true);
    }
    if BranchKept(input.branch) {
      result := result.(branch := input.branch);
    }
    if UrlKept(input.url, valid) {
      result := result.(url := input.url);
    }
    if input.files.Some? {
      var f := GatherFiles(input.files.value);
      if f.oversized {
        result := result.(filesTruncated := true);
      }
      if f.names != [] || input.files.value == [] {
        result := result.(files := Some(Sort(f.names, Less)));
      }
      if |input.files.value| > MAX_FILES || input.filesTruncated {
        result := result.(filesTruncated := true);
      }
    }
    assert result == Bounded(input, valid);
    while JsonBytes(result) > MAX_BYTES && HasFiles(result)
      invariant Shed(result) == Shed(Bounded(input, valid))
      decreases if result.files.Some? then |result.files.value| else 0
    {
      result := result.(files := Some(result.files.value[..|result.files.value| - 1]), filesTruncated := true);
    }
    return Some(result);
  }

  lemma NonEmptyPrefix(s: Text, limit: nat)
    requires limit >= 3
    ensures Truncated(s, limit) == [] <==> s == []
  {
    hide Truncated;
    TruncatedIsLongest(s, limit);
    if s != [] {
      assert s[..1] == [s[0]] && [s[0]][1..] == [];
      assert Bytes(s[..1]) == UnitBytes(s[0]) <= 3;
    }
  }

  // What a result satisfies

  ghost predicate IsSessionResult(r: Result, valid: Text -> bool) {
    && r.summary != [] && Bytes(r.summary) <= MAX_SUMMARY
    && (r.branch.Some? ==> Bytes(r.branch.value) <= MAX_BRANCH)
    && (r.url.Some? ==> Bytes(r.url.value) <= MAX_URL && valid(r.url.value))
    && (r.files.Some? ==>
          |r.files.value| <= MAX_FILES && forall k :: 0 <= k < |r.files.value| ==> r.files.value[k] != [] && Bytes(r.files.value[k]) <= MAX_FILE)
  }

  lemma {:induction false} ShedKeepsPrefix(r: Result) returns (k: nat)
    ensures var s := Shed(r);
            && s == r.(files := s.files, filesTruncated := s.filesTruncated)
            && (r.files.None? ==> s == r && k == 0)
            && (r.files.Some? ==> k <= |r.files.value| && s.files == Some(r.files.value[..k]))
            && (r.files.Some? && k == |r.files.value| ==> s == r)
            && (r.files.Some? && k < |r.files.value| ==>
                  && s.filesTruncated && JsonBytes(r) > MAX_BYTES
                  && forall m :: k < m < |r.files.value| ==> JsonBytes(r.(files := Some(r.files.value[..m]), filesTruncated := true)) > MAX_BYTES)
            && (JsonBytes(s) <= MAX_BYTES || !HasFiles(s))
    decreases if r.files.Some? then |r.files.value| else 0
  {
    hide JsonBytes;
    if JsonBytes(r) > MAX_BYTES && HasFiles(r) {
      var n := |r.files.value| - 1;
      var d := DropLast(r);
      k := ShedKeepsPrefix(d);
      assert d.files.value[..k] == r.files.value[..k];
      forall m | k < m < |r.files.value|
        ensures JsonBytes(r.(files := Some(r.files.value[..m]), filesTruncated := true)) > MAX_BYTES
      {
        if m < n {
          assert d.files.value[..m] == r.files.value[..m];
          assert r.(files := Some(r.files.value[..m]), filesTruncated := true) == d.(files := Some(d.files.value[..m]), filesTruncated := true);
        } else {
          assert r.(files := Some(r.files.value[..m]), filesTruncated := true) == d;
        }
      }
    } else {
      k := if r.files.Some? then |r.files.value| else 0;
      if r.files.Some? {
        assert r.files.value[..k] == r.files.value;
      }
    }
  }

  lemma BoundedFiles(i: Input, valid: Text -> bool)
    requires Usable(i)
    ensures var r := Bounded(i, valid);
            && (r.files.Some? ==> Ascending(r.files.value, Less) && |r.files.value| <= MAX_FILES)
            && (r.files.Some? ==> forall x :: x in r.files.value ==> i.files.Some? && Some(x) in i.files.value && x != [] && Bytes(x) <= MAX_FILE)
            && (i.files.Some? && !r.filesTruncated ==>
                  forall x :: Some(x) in i.files.value && x != [] ==> r.files.Some? && x in r.files.value)
  {
    hide Bytes, Sort, Less;
    if i.files.Some? {
      Gathered(i.files.value);
      LessIsTotalOrder();
      Sorted(Gather(i.files.value).names, Less);
    }
  }

  /** Every normalised result is a valid result; it exists exactly for a non-empty summary from a known source. */
  lemma NormalizedIsValid(i: Input, valid: Text -> bool)
    ensures Normalized(Some(i), valid).Some? <==> Usable(i)
    ensures Usable(i) ==> IsSessionResult(Normalized(Some(i), valid).value, valid)
  {
    hide Bytes, Sort, Gather, Less, JsonBytes, Truncated;
    if Usable(i) {
      var b := Bounded(i, valid);
      var k := ShedKeepsPrefix(b);
      BoundedFiles(i, valid);
      TruncatedIsLongest(i.summary.value, MAX_SUMMARY);
      NonEmptyPrefix(i.summary.value, MAX_SUMMARY);
      if b.files.Some? {
        forall j | 0 <= j < k
          ensures b.files.value[..k][j] != [] && Bytes(b.files.value[..k][j]) <= MAX_FILE
        {
          assert b.files.value[j] in b.files.value;
        }
      }
    }
  }

  /** The summary is the longest prefix within its budget, and is flagged exactly when it was cut or came flagged. */
  lemma SummaryMeaning(i: Input, valid: Text -> bool)
    requires Usable(i)
    ensures var r := Normalized(Some(i), valid).value;
            && LongestPrefix(i.summary.value, MAX_SUMMARY, r.summary)
            && (r.summaryTruncated <==> r.summary != i.summary.value || i.summaryTruncated)
  {
    hide Bytes, JsonBytes, Gather, Sort, Truncated;
    var k := ShedKeepsPrefix(Bounded(i, valid));
    var s := i.summary.value;
    TruncatedIsLongest(s, MAX_SUMMARY);
    assert s[..|s|] == s;
  }

  /** The source is the reported one; a branch or address is kept whole, exactly if it is usable, or not at all. */
  lemma FieldsMeaning(i: Input, valid: Text -> bool)
    requires Usable(i)
    ensures var r := Normalized(Some(i), valid).value;
            && Some(r.source) == i.source
            && r.branch == (if i.branch.Some? && i.branch.value != [] && Bytes(i.branch.value) <= 1024 then i.branch else None)
            && r.url == (if i.url.Some? && Bytes(i.url.value) <= 2048 && valid(i.url.value) then i.url else None)
            && Bytes(r.summary) <= 4096
            && (r.files.Some? ==> |r.files.value| <= 256 && forall x :: x in r.files.value ==> Bytes(x) <= 4096)
            && (JsonBytes(r) <= 32768 || r.files.None? || r.files.value == [])
  {
    hide Bytes, JsonBytes, Gather, Sort, Truncated;
    var k := ShedKeepsPrefix(Bounded(i, valid));
    NormalizedIsValid(i, valid);
  }

  /** The flag on the files has a reason: it came set, a name was too long, there were too many, or the text was. */
  lemma FilesFlagMeaning(i: Input, valid: Text -> bool)
    requires Usable(i)
    ensures var r := Normalized(Some(i), valid).value;
            && (i.files.Some? && (i.filesTruncated || |i.files.value| > 256) ==> r.filesTruncated)
            && (r.filesTruncated ==>
                  && i.files.Some?
                  && (|| i.filesTruncated || |i.files.value| > 256 || JsonBytes(Bounded(i, valid)) > 32768
                      || exists x :: Some(x) in i.files.value && Bytes(x) > 4096))
  {
    hide Bytes, JsonBytes, Sort, Truncated;
    var k := ShedKeepsPrefix(Bounded(i, valid));
    if i.files.Some? {
      OversizedMeaning(i.files.value);
    }
  }

  lemma {:induction false} OversizedMeaning(candidates: seq<Option<Text>>)
    ensures Gather(candidates).oversized ==> exists x :: Some(x) in candidates && Bytes(x) > MAX_FILE
  {
    hide Bytes;
    if candidates != [] {
      var n := |candidates| - 1;
      OversizedMeaning(candidates[..n]);
      assert candidates == candidates[..n] + [candidates[n]];
    }
  }

  /** Files are sorted names from the report; without the flag, no non-empty name of the report is missing. */
  lemma FilesMeaning(i: Input, valid: Text -> bool)
    requires Usable(i)
    ensures var r := Normalized(Some(i), valid).value;
            && (r.files.Some? ==> Ascending(r.files.value, Less) && i.files.Some? && forall x :: x in r.files.value ==> Some(x) in i.files.value)
            && (i.files.Some? && !r.filesTruncated ==> forall x :: Some(x) in i.files.value && x != [] ==> r.files.Some? && x in r.files.value)
  {
    hide Bytes, JsonBytes, Gather, Sort, Less, Truncated;
    var b := Bounded(i, valid);
    var k := ShedKeepsPrefix(b);
    BoundedFiles(i, valid);
    if b.files.Some? {
      assert forall j :: 0 <= j < k ==> b.files.value[..k][j] == b.files.value[j];
    }
  }

  /** The longest prefix of the sorted files that fits is kept; when nothing fits, no file is left. */
  lemma SheddingIsMinimal(i: Input, valid: Text -> bool)
    requires Usable(i)
    ensures var b, r := Bounded(i, valid), Normalized(Some(i), valid).value;
            && (JsonBytes(r) <= MAX_BYTES || !HasFiles(r))
            && (b.files.Some? ==> r.files.Some? && r.files.value <= b.files.value)
            && (r != b ==>
                  && b.files.Some? && r.filesTruncated && JsonBytes(b) > MAX_BYTES
                  && forall m :: |r.files.value| < m < |b.files.value| ==>
                       JsonBytes(b.(files := Some(b.files.value[..m]), filesTruncated := true)) > MAX_BYTES)
  {
    hide JsonBytes, Bounded;
    var k := ShedKeepsPrefix(Bounded(i, valid));
  }

  function AsInput(r: Result): Input {
    Input(Some(r.summary), Some(r.source), r.summaryTruncated, r.branch, r.url,
          if r.files.Some? then Some(Names(r.files.value)) else None, r.filesTruncated)
  }

  function Names(files: seq<Text>): seq<Option<Text>> {
    seq(|files|, k requires 0 <= k < |files| => Some(files[k]))
  }

  lemma {:induction false} GatherNames(files: seq<Text>)
    requires Distinct(files) && |files| <= MAX_FILES
    requires forall k :: 0 <= k < |files| ==> files[k] != [] && Bytes(files[k]) <= MAX_FILE
    ensures Gather(Names(files)) == Files(files, false)
  {
    hide Bytes;
    if files != [] {
      var n := |files| - 1;
      GatherNames(files[..n]);
      assert Names(files)[..n] == Names(files[..n]);
      assert files[n] !in files[..n];
      assert files[..n] + [files[n]] == files;
    }
  }

  /** No string of the report is a usable file name. */
  ghost predicate NoUsableName(candidates: seq<Option<Text>>) {
    forall x :: Some(x) in candidates ==> x == [] || Bytes(x) > MAX_FILE
  }

  lemma {:induction false} GatherNothing(candidates: seq<Option<Text>>)
    ensures Gather(candidates).names == [] <==> NoUsableName(candidates)
    ensures NoUsableName(candidates) ==> (Gather(candidates).oversized <==> exists x :: Some(x) in candidates && x != [])
  {
    hide Bytes;
    if candidates != [] {
      var n := |candidates| - 1;
      var init, last := candidates[..n], candidates[n];
      GatherNothing(init);
      assert candidates == init + [last];
      assert forall x :: Some(x) in candidates <==> Some(x) in init || Some(x) == last;
      assert NoUsableName(candidates) ==> NoUsableName(init);
    }
  }

  /**
   * The report lists files, none of them usable, and says or shows that some are missing: a name is too long,
   * there are too many entries, or the flag came set.
   */
  ghost predicate FlagWithoutList(i: Input) {
    && i.files.Some? && i.files.value != [] && NoUsableName(i.files.value)
    && ((exists x :: Some(x) in i.files.value && x != []) || |i.files.value| > MAX_FILES || i.filesTruncated)
  }

  /** Normalising is idempotent exactly on reports of the other kinds: there, a second pass drops the flag. */
  lemma NormalizeTwice(i: Input, valid: Text -> bool)
    requires Usable(i)
    ensures var r := Normalized(Some(i), valid).value;
            Normalized(Some(AsInput(r)), valid) == Some(r) <==> !FlagWithoutList(i)
  {
    hide Bytes, Sort, Gather, Less, JsonBytes, Truncated, NoUsableName;
    var b, r := Bounded(i, valid), Normalized(Some(i), valid).value;
    var k := ShedKeepsPrefix(b);
    NormalizedIsValid(i, valid);
    FilesMeaning(i, valid);
    AlreadyShort(r.summary, MAX_SUMMARY);
    var again := Bounded(AsInput(r), valid);
    LessIsTotalOrder();
    if r.files.Some? {
      AscendingIsDistinct(r.files.value, Less);
      GatherNames(r.files.value);
      SortAscending(r.files.value, Less);
      assert again == r;
    }
    assert Shed(r) == r;
    var l := ShedKeepsPrefix(again);
    FlagMeaning(i, valid);
  }

  lemma FlagMeaning(i: Input, valid: Text -> bool)
    requires Usable(i)
    ensures var b := Bounded(i, valid); b.files.None? && b.filesTruncated <==> FlagWithoutList(i)
  {
    hide Bytes, Sort, Gather, NoUsableName, Truncated;
    if i.files.Some? {
      GatherNothing(i.files.value);
    }
  }

  /** One name over the limit is enough to lose the flag on the second pass. */
  lemma OversizedNameLosesFlag(name: Text, valid: Text -> bool)
    requires Bytes(name) > MAX_FILE
    ensures var i := Input(Some([0x61]), Some(Agent), false, None, None, Some([Some(name)]), false);
            var r := Normalized(Some(i), valid);
            && r.Some? && r.value.filesTruncated && r.value.files.None?
            && Normalized(Some(AsInput(r.value)), valid) == Some(r.value.(filesTruncated := false))
  {
    hide Bytes, JsonBytes, Sort, Truncated;
    var i := Input(Some([0x61]), Some(Agent), false, None, None, Some([Some(name)]), false);
    assert NoUsableName([Some(name)]);
    GatherNothing([Some(name)]);
    assert Some(name) in i.files.value && name != [] by { EmptyIsShort(name); }
    var r := Normalized(Some(i), valid).value;
    var k := ShedKeepsPrefix(Bounded(i, valid));
    assert r == Bounded(i, valid);
    OneLetter();
    AlreadyShort([0x61], MAX_SUMMARY);
    var again := Bounded(AsInput(r), valid);
    assert again == r.(filesTruncated := false);
    var l := ShedKeepsPrefix(again);
  }

  lemma EmptyIsShort(s: Text)
    ensures s == [] ==> Bytes(s) == 0
  {
  }

  lemma OneLetter()
    ensures Bytes([0x61]) == 1
  {
    var s: Text := [0x61];
    assert s[1..] == [];
  }

  lemma AlreadyShort(s: Text, limit: nat)
    requires Bytes(s) <= limit
    ensures Truncated(s, limit) == s
  {
    assert s[..|s|] == s;
  }

  // The byte budget

  lemma {:induction false} ListGrows(files: seq<Text>, n: nat)
    requires n <= |files|
    ensures ListBytes(files[..n]) <= ListBytes(files)
  {
    hide JsonString;
    if n < |files| {
      var init := files[..|files| - 1];
      ListGrows(init, n);
      assert init[..n] == files[..n];
    } else {
      assert files[..n] == files;
    }
  }

  /**
   * The result meets the byte budget exactly when the report's fields do: as they are, or with every file shed
   * and the flag that shedding adds.
   */
  lemma FitsIfFieldsFit(i: Input, valid: Text -> bool)
    requires Usable(i)
    ensures var b := Bounded(i, valid);
            JsonBytes(Normalized(Some(i), valid).value) <= MAX_BYTES <==>
            || JsonBytes(b) <= MAX_BYTES
            || (HasFiles(b) && JsonBytes(b.(files := Some([]), filesTruncated := true)) <= MAX_BYTES)
  {
    hide Bounded, Escaped;
    var b, r := Bounded(i, valid), Normalized(Some(i), valid).value;
    var k := ShedKeepsPrefix(b);
    if b.files.Some? {
      var files := b.files.value[..k];
      ListGrows(files, 0);
      assert files[..0] == [];
      assert k == 0 ==> files == [];
    }
  }

  function Repeat(u: Unit, n: nat): Text { if n == 0 then [] else [u] + Repeat(u, n - 1) }

  lemma {:induction false} RepeatControl(n: nat)
    ensures |Repeat(1, n)| == n && Bytes(Repeat(1, n)) == n && Escaped(Repeat(1, n)) == 6 * n
  {
    if n > 0 {
      RepeatControl(n - 1);
      assert Repeat(1, n)[1..] == Repeat(1, n - 1);
    }
  }

  /** Text that needs escaping can exceed the byte budget although every field is within its own. */
  lemma EscapesExceedBudget(url: Text, valid: Text -> bool)
    requires Bytes(url) <= MAX_URL && Escaped(url) >= MAX_URL && valid(url)
    ensures exists i: Input :: Usable(i) && JsonBytes(Normalized(Some(i), valid).value) > MAX_BYTES
  {
    hide Bytes, Escaped, Truncated;
    RepeatControl(MAX_SUMMARY);
    RepeatControl(MAX_BRANCH);
    var i := Input(Some(Repeat(1, MAX_SUMMARY)), Some(Agent), false, Some(Repeat(1, MAX_BRANCH)), Some(url), None, false);
    AlreadyShort(Repeat(1, MAX_SUMMARY), MAX_SUMMARY);
    var b := Bounded(i, valid);
    var k := ShedKeepsPrefix(b);
    assert b.branch == i.branch && b.url == Some(url);
    assert Usable(i);
  }
}
