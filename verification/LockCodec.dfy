/**
 The text a lock owner's state is stored as: request validation, `Encode`, `Decode` and
 the budgets.  Decoding what was encoded gives the set back, and decoding accepts
 nothing but canonical sets.
 */
module LockCodec {
  import opened Common
  import opened LockRanges

  const MAX_VALUE_BYTES: nat := 4096
  const MAX_INTERVALS: nat := 128

  datatype Flock = Shared | Exclusive | Unlocked

  // ---- Text primitives ----

  function Digit(d: nat): char
    requires d < 10
  {
    '0' + d as char
  }

  predicate IsDigit(c: char) { '0' <= c <= '9' }

  /** Decimal text without leading zeros, as the formatter prints it. */
  function Digits(n: nat): string {
    if n < 10 then [Digit(n)] else Digits(n / 10) + [Digit(n % 10)]
  }

  function DigitsValue(s: string): (v: Option<nat>)
  {
    if s == [] then Some(0)
    else
      var v := DigitsValue(s[..|s| - 1]);
      var c := s[|s| - 1];
      if v.None? || !IsDigit(c) then None else Some(10 * v.value + (c as int - '0' as int))
  }

  /** `std::from_chars` over the whole text into an unsigned 64-bit number. */
  function ParseNumber(s: string): Option<nat> {
    if s == [] then None
    else
      var v := DigitsValue(s);
      if v.Some? && v.value <= UINT64_MAX then v else None
  }

  function IndexOf(s: string, c: char): (i: nat)
    ensures i <= |s|
    ensures i < |s| ==> s[i] == c
    ensures forall k :: 0 <= k < i ==> s[k] != c
  {
    if s == [] || s[0] == c then 0 else 1 + IndexOf(s[1..], c)
  }

  /** Everything before the first delimiter and everything after it; no second part without one. */
  function SplitOnce(s: string, c: char): (r: (string, string))
    ensures |r.1| < |s| || s == []
  {
    var i := IndexOf(s, c);
    if i == |s| then (s, []) else (s[..i], s[i + 1..])
  }

  // ---- Records ----

  /** Requested `[start, start + length)` with `length == 0` reaching to infinity. */
  function ValidateRange(start: nat, length: nat, kind: Kind, pid: int): (r: Result<Interval>)
    requires start <= UINT64_MAX && length <= UINT64_MAX
    ensures r.Success? ==> r.value.start < r.value.end <= UINT64_MAX && r.value.pid == pid && r.value.kind == kind
    ensures r.Success? ==> r.value.start == start && r.value.end == if length == 0 then UINT64_MAX else start + length
    ensures r.Failure? <==> start + length > UINT64_MAX || pid < 0 || (length == 0 && start == UINT64_MAX)
  {
    if length != 0 && length > UINT64_MAX - start then Failure(InvalidArgument)
    else if pid < 0 then Failure(InvalidArgument)
    else
      var i := Interval(start, if length == 0 then UINT64_MAX else start + length, kind, pid);
      if i.start == i.end then Failure(InvalidArgument) else Success(i)
  }

  function EntryText(i: Interval): string {
    [if i.kind == Read then 'R' else 'W'] + "," + Digits(i.start) + "," + Digits(i.end) + "," + Digits(i.pid)
  }

  function Encoded(rs: seq<Interval>): string {
    if rs == [] then "P2" else Encoded(rs[..|rs| - 1]) + "|" + EntryText(rs[|rs| - 1])
  }

  function ParseEntry(entry: string): (r: Option<Interval>)
    ensures r.Some? ==> r.value.start < r.value.end <= UINT64_MAX && r.value.kind != Unlock && r.value.pid <= INT32_MAX
  {
    var (kind, tail) := SplitOnce(entry, ',');
    var (start, remaining) := SplitOnce(tail, ',');
    var (end, pid) := SplitOnce(remaining, ',');
    var first, last, holder := ParseNumber(start), ParseNumber(end), ParseNumber(pid);
    if (kind != "R" && kind != "W") || IndexOf(remaining, ',') == |remaining| || first.None? || last.None?
       || holder.None? then
      None
    else if holder.value > INT32_MAX || first.value >= last.value then
      None
    else
      Some(Interval(first.value, last.value, if kind == "R" then Read else Write, holder.value))
  }

  predicate MayFollow(rs: seq<Interval>, i: Interval) {
    rs == [] || (rs[|rs| - 1].end <= i.start && !Joins(rs[|rs| - 1], i))
  }

  function DecodeFrom(data: string, acc: seq<Interval>): Option<seq<Interval>>
    requires data != []
    decreases |data|
  {
    var (entry, rest) := SplitOnce(data, '|');
    var i := ParseEntry(entry);
    if i.None? || !MayFollow(acc, i.value) || |acc| + 1 > MAX_INTERVALS then None
    else if rest == [] then Some(acc + [i.value])
    else DecodeFrom(rest, acc + [i.value])
  }

  /** `None` is the source's Malformed status. */
  function Decoded(data: string): Option<seq<Interval>> {
    if |data| > MAX_VALUE_BYTES || !("P2|" <= data) then None
    else
      var body := data[3..];
      if body == [] || body[|body| - 1] == '|' then None else DecodeFrom(body, [])
  }

  predicate WellSized(rs: seq<Interval>) {
    |rs| <= MAX_INTERVALS && |Encoded(rs)| <= MAX_VALUE_BYTES
  }

  /** Numbers fit the widths of the source's fields. */
  predicate InRange(rs: seq<Interval>) {
    forall i :: i in rs ==> i.end <= UINT64_MAX && i.pid <= INT32_MAX
  }

  // ---- The source's loops ----

  method Encode(rs: seq<Interval>) returns (text: string)
    ensures text == Encoded(rs)
    ensures rs != [] && Canonical(rs) && InRange(rs) ==> (Decoded(text) == Some(rs) <==> WellSized(rs))
  {
    text := "P2";
    for i := 0 to |rs|
      invariant text == Encoded(rs[..i])
    {
      assert rs[..i + 1][..i] == rs[..i];
      text := text + "|" + EntryText(rs[i]);
    }
    assert rs[..|rs|] == rs;
    if rs != [] && Canonical(rs) && InRange(rs) {
      DecodeEncode(rs);
    }
  }

  method Decode(text: string) returns (r: Result<seq<Interval>>)
    ensures r == if Decoded(text).Some? then Success(Decoded(text).value) else Failure(Malformed)
    ensures r.Success? ==> r.value != [] && Canonical(r.value) && |r.value| <= MAX_INTERVALS && InRange(r.value)
  {
    if |text| > MAX_VALUE_BYTES || !("P2|" <= text) {
      return Failure(Malformed);
    }
    var data := text[3..];
    if data == [] || data[|data| - 1] == '|' {
      return Failure(Malformed);
    }
    var ranges: seq<Interval> := [];
    while true
      invariant data != []
      invariant Decoded(text) == DecodeFrom(data, ranges)
      invariant Canonical(ranges) && InRange(ranges)
      decreases |data|
    {
      var (entry, rest) := SplitOnce(data, '|');
      var i := ParseEntry(entry);
      if i.None? || !MayFollow(ranges, i.value) || |ranges| + 1 > MAX_INTERVALS {
        return Failure(Malformed);
      }
      ExtendsCanonical(ranges, i.value);
      ranges := ranges + [i.value];
      if rest == [] {
        return Success(ranges);
      }
      data := rest;
    }
  }

  // ---- Lemmas ----

  lemma {:induction false} DigitsParse(n: nat)
    ensures DigitsValue(Digits(n)) == Some(n)
    ensures Digits(n) != [] && ',' !in Digits(n) && '|' !in Digits(n)
  {
    if n >= 10 {
      DigitsParse(n / 10);
      assert Digits(n)[..|Digits(n)| - 1] == Digits(n / 10);
    }
  }

  lemma {:induction false} IndexOfFirst(a: string, c: char, b: string)
    requires c !in a
    ensures IndexOf(a + [c] + b, c) == |a|
  {
    if a != [] {
      assert a[0] in a && (a + [c] + b)[1..] == a[1..] + [c] + b;
      IndexOfFirst(a[1..], c, b);
    }
  }

  lemma SplitAtDelimiter(a: string, c: char, b: string)
    requires c !in a
    ensures SplitOnce(a + [c] + b, c) == (a, b)
  {
    IndexOfFirst(a, c, b);
    var s := a + [c] + b;
    assert s[..|a|] == a && s[|a| + 1..] == b;
  }

  lemma SplitWithoutDelimiter(a: string, c: char)
    requires c !in a
    ensures SplitOnce(a, c) == (a, [])
  {
    if IndexOf(a, c) < |a| {
      assert a[IndexOf(a, c)] in a;
    }
  }

  /** Four fields joined by commas are read back as those fields. */
  lemma ParseFields(kind: string, start: string, end: string, pid: string)
    requires kind == "R" || kind == "W"
    requires ',' !in start && ',' !in end
    requires ParseNumber(start).Some? && ParseNumber(end).Some? && ParseNumber(pid).Some?
    requires ParseNumber(pid).value <= INT32_MAX && ParseNumber(start).value < ParseNumber(end).value
    ensures ParseEntry(kind + [','] + (start + [','] + (end + [','] + pid))) ==
            Some(Interval(ParseNumber(start).value, ParseNumber(end).value,
                          if kind == "R" then Read else Write, ParseNumber(pid).value))
  {
    hide SplitOnce, IndexOf, ParseNumber, ParseEntry;
    var remaining := end + [','] + pid;
    var tail := start + [','] + remaining;
    SplitAtDelimiter(kind, ',', tail);
    SplitAtDelimiter(start, ',', remaining);
    SplitAtDelimiter(end, ',', pid);
    IndexOfFirst(end, ',', pid);
    ParseSplit(kind + [','] + tail, kind, tail, start, remaining, end, pid);
  }

  lemma ParseSplit(entry: string, kind: string, tail: string, start: string, remaining: string, end: string,
                   pid: string)
    requires SplitOnce(entry, ',') == (kind, tail) && SplitOnce(tail, ',') == (start, remaining)
    requires SplitOnce(remaining, ',') == (end, pid) && IndexOf(remaining, ',') < |remaining|
             && (kind == "R" || kind == "W")
    requires ParseNumber(start).Some? && ParseNumber(end).Some? && ParseNumber(pid).Some?
    requires ParseNumber(pid).value <= INT32_MAX && ParseNumber(start).value < ParseNumber(end).value
    ensures ParseEntry(entry) ==
            Some(Interval(ParseNumber(start).value, ParseNumber(end).value,
                          if kind == "R" then Read else Write, ParseNumber(pid).value))
  {
    hide SplitOnce, IndexOf, ParseNumber;
  }

  lemma NumberRoundTrip(n: nat)
    requires n <= UINT64_MAX
    ensures ParseNumber(Digits(n)) == Some(n)
    ensures ',' !in Digits(n) && '|' !in Digits(n)
  {
    DigitsParse(n);
  }

  lemma EntryRoundTrip(i: Interval)
    requires i.start < i.end <= UINT64_MAX && i.pid <= INT32_MAX && i.kind != Unlock
    ensures ParseEntry(EntryText(i)) == Some(i)
    ensures '|' !in EntryText(i) && EntryText(i) != []
  {
    hide ParseEntry, ParseNumber, Digits;
    var kind := [if i.kind == Read then 'R' else 'W'];
    NumberRoundTrip(i.start);
    NumberRoundTrip(i.end);
    NumberRoundTrip(i.pid);
    ParseFields(kind, Digits(i.start), Digits(i.end), Digits(i.pid));
    assert EntryText(i) == kind + [','] + (Digits(i.start) + [','] + (Digits(i.end) + [','] + Digits(i.pid)));
  }

  /** The stored text after its header: entries joined by bars, read from the left. */
  function Body(rs: seq<Interval>): string
    requires rs != []
  {
    if |rs| == 1 then EntryText(rs[0]) else EntryText(rs[0]) + ['|'] + Body(rs[1..])
  }

  lemma {:induction false} BodyAppend(rs: seq<Interval>, i: Interval)
    requires rs != []
    ensures Body(rs + [i]) == Body(rs) + ['|'] + EntryText(i)
  {
    hide EntryText;
    if |rs| == 1 {
      assert (rs + [i])[1..] == [i];
    } else {
      assert (rs + [i])[1..] == rs[1..] + [i];
      BodyAppend(rs[1..], i);
    }
  }

  lemma {:induction false} EncodedBody(rs: seq<Interval>)
    requires rs != []
    ensures Encoded(rs) == "P2|" + Body(rs)
  {
    hide EntryText;
    var front, last := rs[..|rs| - 1], rs[|rs| - 1];
    assert rs == front + [last];
    if front != [] {
      EncodedBody(front);
      BodyAppend(front, last);
    }
  }

  lemma DecodeLast(text: string, i: Interval, acc: seq<Interval>)
    requires text != [] && '|' !in text && ParseEntry(text) == Some(i)
    requires MayFollow(acc, i) && |acc| < MAX_INTERVALS
    ensures DecodeFrom(text, acc) == Some(acc + [i])
  {
    SplitWithoutDelimiter(text, '|');
  }

  lemma DecodeStep(text: string, i: Interval, more: string, acc: seq<Interval>)
    requires '|' !in text && ParseEntry(text) == Some(i) && more != []
    requires MayFollow(acc, i) && |acc| < MAX_INTERVALS
    ensures DecodeFrom(text + ['|'] + more, acc) == DecodeFrom(more, acc + [i])
  {
    SplitAtDelimiter(text, '|', more);
  }

  lemma {:induction false} BodyEnds(rs: seq<Interval>)
    requires rs != [] && Canonical(rs) && InRange(rs)
    ensures Body(rs) != [] && Body(rs)[|Body(rs)| - 1] != '|'
  {
    hide EntryText, ParseEntry;
    assert rs[0] in rs;
    EntryRoundTrip(rs[0]);
    if |rs| > 1 {
      BodyEnds(rs[1..]);
    }
  }

  lemma {:induction false} DecodeBody(rs: seq<Interval>, acc: seq<Interval>)
    requires rs != [] && |acc| + |rs| <= MAX_INTERVALS && Canonical(rs) && InRange(rs)
    requires MayFollow(acc, rs[0])
    ensures Body(rs) != [] && DecodeFrom(Body(rs), acc) == Some(acc + rs)
  {
    hide ParseEntry, DecodeFrom, EntryText;
    assert rs[0] in rs;
    EntryRoundTrip(rs[0]);
    if |rs| == 1 {
      DecodeLast(Body(rs), rs[0], acc);
      assert rs == [rs[0]];
    } else {
      assert !Joins(rs[0], rs[1]);
      DecodeBody(rs[1..], acc + [rs[0]]);
      DecodeStep(EntryText(rs[0]), rs[0], Body(rs[1..]), acc);
      assert acc + rs == acc + [rs[0]] + rs[1..];
    }
  }

  lemma ExtendsCanonical(rs: seq<Interval>, i: Interval)
    requires Canonical(rs) && InRange(rs) && MayFollow(rs, i)
    requires i.start < i.end <= UINT64_MAX && i.kind != Unlock && i.pid <= INT32_MAX
    ensures Canonical(rs + [i]) && InRange(rs + [i])
  {
    forall k | 0 <= k < |rs| ensures rs[k].end <= i.start {
      assert rs[k].end <= rs[|rs| - 1].end;
    }
  }

  lemma {:induction false} DecodeFromCanonical(data: string, acc: seq<Interval>)
    requires data != [] && Canonical(acc) && InRange(acc)
    ensures var r := DecodeFrom(data, acc);
            r.Some? ==> r.value != [] && Canonical(r.value) && |r.value| <= MAX_INTERVALS && InRange(r.value)
    decreases |data|
  {
    var (entry, rest) := SplitOnce(data, '|');
    var i := ParseEntry(entry);
    if i.Some? && MayFollow(acc, i.value) && |acc| + 1 <= MAX_INTERVALS {
      ExtendsCanonical(acc, i.value);
      if rest != [] {
        DecodeFromCanonical(rest, acc + [i.value]);
      }
    }
  }

  /** Nothing but a canonical, bounded, nonempty set is ever accepted from storage. */
  lemma DecodedCanonical(data: string)
    ensures Decoded(data).Some? ==>
              Decoded(data).value != [] && Canonical(Decoded(data).value) &&
              |Decoded(data).value| <= MAX_INTERVALS && InRange(Decoded(data).value)
  {
    if |data| <= MAX_VALUE_BYTES && "P2|" <= data && data[3..] != [] {
      DecodeFromCanonical(data[3..], []);
    }
  }

  lemma DecodeFitting(rs: seq<Interval>)
    requires rs != [] && Canonical(rs) && InRange(rs) && WellSized(rs)
    ensures Decoded(Encoded(rs)) == Some(rs)
  {
    hide DecodeFrom, Body, Encoded;
    EncodedBody(rs);
    BodyEnds(rs);
    DecodeBody(rs, []);
    var text := Encoded(rs);
    assert "P2|" <= text && text[3..] == Body(rs);
    assert [] + rs == rs;
  }

  /** Decode undoes Encode on a canonical set exactly when the set is within the budgets. */
  lemma DecodeEncode(rs: seq<Interval>)
    requires rs != [] && Canonical(rs) && InRange(rs)
    ensures Decoded(Encoded(rs)) == Some(rs) <==> WellSized(rs)
  {
    if WellSized(rs) {
      DecodeFitting(rs);
    } else {
      DecodedCanonical(Encoded(rs));
    }
  }

  // ---- Exactly which texts are accepted ----

  /** Decimal digits, leading zeros allowed, for `n`. */
  ghost predicate Number(s: string, n: nat) { s != [] && DigitsValue(s) == Some(n) }

  ghost predicate EntryReads(entry: string, i: Interval) {
    exists a, b, c :: EntryIs(entry, i, a, b, c)
  }

  ghost predicate EntryIs(entry: string, i: Interval, a: string, b: string, c: string) {
    && i.kind != Unlock && Number(a, i.start) && Number(b, i.end) && Number(c, i.pid)
    && entry == (if i.kind == Read then "R" else "W") + [','] + (a + [','] + (b + [','] + c))
  }

  function Joined(entries: seq<string>): string
    requires entries != []
  {
    if |entries| == 1 then entries[0] else entries[0] + ['|'] + Joined(entries[1..])
  }

  ghost predicate AllRead(entries: seq<string>, rs: seq<Interval>) {
    |entries| == |rs| && forall k :: 0 <= k < |rs| ==> EntryReads(entries[k], rs[k])
  }

  /** The header, then the entries of the set separated by bars. */
  ghost predicate Spells(text: string, rs: seq<Interval>) {
    exists entries: seq<string> :: entries != [] && AllRead(entries, rs) && text == "P2|" + Joined(entries)
  }

  lemma {:induction false} DigitsOnly(s: string)
    ensures DigitsValue(s).Some? ==> ',' !in s && '|' !in s
  {
    if s != [] {
      DigitsOnly(s[..|s| - 1]);
      assert s == s[..|s| - 1] + [s[|s| - 1]];
    }
  }

  lemma ReadsParse(entry: string, i: Interval)
    requires EntryReads(entry, i) && i.start < i.end <= UINT64_MAX && i.pid <= INT32_MAX
    ensures ParseEntry(entry) == Some(i) && '|' !in entry && entry != []
  {
    hide ParseEntry, DigitsValue;
    var a, b, c :| EntryIs(entry, i, a, b, c);
    DigitsOnly(a);
    DigitsOnly(b);
    DigitsOnly(c);
    ParseFields(if i.kind == Read then "R" else "W", a, b, c);
  }

  lemma SplitJoins(s: string, c: char)
    ensures var (a, b) := SplitOnce(s, c);
            && c !in a && (b != [] ==> s == a + [c] + b)
            && (IndexOf(s, c) < |s| ==> s == a + [c] + b) && (IndexOf(s, c) == |s| ==> a == s && b == [])
  {
    var i := IndexOf(s, c);
    if i < |s| {
      assert s == s[..i] + [s[i]] + s[i + 1..];
    }
  }

  lemma ParseReads(entry: string, i: Interval)
    requires ParseEntry(entry) == Some(i)
    ensures EntryReads(entry, i)
  {
    hide SplitOnce, IndexOf, DigitsValue;
      var (kind, tail) := SplitOnce(entry, ',');
    var (start, remaining) := SplitOnce(tail, ',');
    var (end, pid) := SplitOnce(remaining, ',');
    SplitJoins(entry, ',');
    SplitJoins(tail, ',');
    SplitJoins(remaining, ',');
    assert EntryIs(entry, i, start, end, pid);
  }

  /** Reading from the left takes the text apart into entries of the set. */
  lemma {:induction false} DecodeReads(data: string, acc: seq<Interval>, rs: seq<Interval>)
    returns (entries: seq<string>)
    requires data != [] && data[|data| - 1] != '|' && DecodeFrom(data, acc) == Some(rs)
    ensures acc <= rs && entries != [] && AllRead(entries, rs[|acc|..]) && data == Joined(entries)
    decreases |data|
  {
    hide ParseEntry, EntryReads, SplitOnce;
      var (entry, rest) := SplitOnce(data, '|');
    var i := ParseEntry(entry).value;
    SplitJoins(data, '|');
    ParseReads(entry, i);
    if rest == [] {
      assert data == entry by { LastEntry(data, entry); }
      entries := [entry];
      assert rs[|acc|..] == [i];
    } else {
      assert data == entry + ['|'] + rest;
      assert rest[|rest| - 1] == data[|data| - 1];
      var more := DecodeReads(rest, acc + [i], rs);
      entries := [entry] + more;
      assert rs[|acc|..] == [i] + rs[|acc| + 1..];
      assert entries[1..] == more;
    }
  }

  lemma LastEntry(data: string, entry: string)
    requires data != [] && data[|data| - 1] != '|' && SplitOnce(data, '|') == (entry, [])
    ensures data == entry
  {
    SplitJoins(data, '|');
    var longer := entry + ['|'] + [];
    assert longer[|longer| - 1] == '|';
  }

  lemma {:induction false} ReadsDecode(entries: seq<string>, rs: seq<Interval>, acc: seq<Interval>)
    requires entries != [] && AllRead(entries, rs) && |acc| + |rs| <= MAX_INTERVALS && Canonical(rs) && InRange(rs)
    requires MayFollow(acc, rs[0])
    ensures Joined(entries) != [] && Joined(entries)[|Joined(entries)| - 1] != '|'
    ensures DecodeFrom(Joined(entries), acc) == Some(acc + rs)
  {
    hide ParseEntry, DecodeFrom, EntryReads;
    assert rs[0] in rs && EntryReads(entries[0], rs[0]);
    ReadsParse(entries[0], rs[0]);
    if |rs| == 1 {
      DecodeLast(entries[0], rs[0], acc);
      assert rs == [rs[0]];
    } else {
      assert !Joins(rs[0], rs[1]);
      ReadsDecode(entries[1..], rs[1..], acc + [rs[0]]);
      DecodeStep(entries[0], rs[0], Joined(entries[1..]), acc);
      assert acc + rs == acc + [rs[0]] + rs[1..];
    }
  }

  /** A stored text is accepted exactly when it spells a canonical set within the budgets. */
  lemma DecodedExactly(text: string, rs: seq<Interval>)
    ensures Decoded(text) == Some(rs) <==>
            && Spells(text, rs) && |text| <= MAX_VALUE_BYTES
            && |rs| <= MAX_INTERVALS && Canonical(rs) && InRange(rs)
  {
    hide DecodeFrom, Joined, AllRead;
    if Decoded(text) == Some(rs) {
      DecodedCanonical(text);
      var entries := DecodeReads(text[3..], [], rs);
      assert rs[0..] == rs && text == "P2|" + text[3..];
    }
    if Spells(text, rs) && |text| <= MAX_VALUE_BYTES && |rs| <= MAX_INTERVALS && Canonical(rs) && InRange(rs) {
      var entries: seq<string> :| entries != [] && AllRead(entries, rs) && text == "P2|" + Joined(entries);
      assert |rs| == |entries| by { SameNumber(entries, rs); }
      ReadsDecode(entries, rs, []);
      assert text[3..] == Joined(entries) && [] + rs == rs;
    }
  }

  lemma SameNumber(entries: seq<string>, rs: seq<Interval>)
    requires AllRead(entries, rs)
    ensures |entries| == |rs|
  {
  }

  /** The stored form of one lock, letter by letter. */
  lemma StoredForm()
    ensures Encoded([Interval(0, 10, Write, 7)]) == "P2|W,0,10,7"
    ensures Encoded([Interval(0, 10, Write, 7), Interval(20, 21, Read, 8)]) == "P2|W,0,10,7|R,20,21,8"
  {
    assert Digits(0) == "0" && Digits(10) == "10" && Digits(7) == "7" && Digits(20) == "20" && Digits(21) == "21";
    assert Digits(8) == "8";
    var one := [Interval(0, 10, Write, 7)];
    var two := one + [Interval(20, 21, Read, 8)];
    assert one[..0] == [] && two[..1] == one;
  }
}
