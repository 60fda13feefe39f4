/**
 The POSIX ACL extended attribute: its binary form, the ordered grammar that section 23 of
 POSIX.1e draft 17 gives it, and the operations that keep a stored access ACL and the mode
 bits in step.
 */
module PosixAcl {
  import opened Bits
  import opened Common

  const VERSION := 2
  const USER_OBJ := 0x01
  const USER := 0x02
  const GROUP_OBJ := 0x04
  const GROUP := 0x08
  const MASK := 0x10
  const OTHER := 0x20
  const UNDEFINED_ID := UINT32_MAX
  const HEADER_SIZE := 4
  const ENTRY_SIZE := 8

  datatype Entry = Entry(tag: nat, perm: nat, id: nat)

  // ---- The grammar ----

  predicate Named(e: Entry) { e.tag == USER || e.tag == GROUP }

  predicate Known(tag: nat) { tag in {USER_OBJ, USER, GROUP_OBJ, GROUP, MASK, OTHER} }

  /** Permission bits only, and an identity exactly where the entry names someone. */
  predicate WellFormed(e: Entry) {
    Known(e.tag) && e.perm < 8 && e.id <= UNDEFINED_ID && (Named(e) <==> e.id != UNDEFINED_ID)
  }

  /** The tags are declared in their required order; only named entries repeat, with another identity. */
  predicate Before(a: Entry, b: Entry) { a.tag < b.tag || (a.tag == b.tag && Named(a) && a.id != b.id) }

  predicate Has(entries: seq<Entry>, tag: nat) { exists k :: 0 <= k < |entries| && entries[k].tag == tag }

  ghost predicate Grammar(entries: seq<Entry>) {
    && InOrder(entries)
    && Has(entries, USER_OBJ) && Has(entries, GROUP_OBJ) && Has(entries, OTHER)
    && (Has(entries, USER) || Has(entries, GROUP) ==> Has(entries, MASK))
  }

  datatype Expect = ExpectUserObj | ExpectUsers | ExpectGroups | ExpectOther | Done

  function Ids(entries: seq<Entry>, tag: nat): set<nat> {
    set k | 0 <= k < |entries| && entries[k].tag == tag :: entries[k].id
  }

  ghost predicate InOrder(entries: seq<Entry>) {
    && (forall k :: 0 <= k < |entries| ==> WellFormed(entries[k]))
    && (forall j, k :: 0 <= j < k < |entries| ==> Before(entries[j], entries[k]))
  }

  /** What the state of the scan says about the entries it has accepted. */
  ghost predicate Scanned(prefix: seq<Entry>, state: Expect, users: set<nat>, groups: set<nat>, named: bool,
                          mask: bool) {
    && (Has(prefix, USER_OBJ) <==> state != ExpectUserObj)
    && (Has(prefix, GROUP_OBJ) <==> state in {ExpectGroups, ExpectOther, Done})
    && (Has(prefix, MASK) <==> mask) && (state == ExpectOther ==> mask) && (mask ==> state in {ExpectOther, Done})
    && (Has(prefix, OTHER) <==> state == Done)
    && (named <==> Has(prefix, USER) || Has(prefix, GROUP))
    && (forall k :: 0 <= k < |prefix| ==> prefix[k].tag <= Highest(state))
    && users == Ids(prefix, USER) && groups == Ids(prefix, GROUP)
  }

  function Highest(state: Expect): nat {
    match state
    case ExpectUserObj => 0
    case ExpectUsers => USER
    case ExpectGroups => GROUP
    case ExpectOther => MASK
    case Done => OTHER
  }

  lemma HasPush(prefix: seq<Entry>, e: Entry, tag: nat)
    ensures Has(prefix + [e], tag) <==> Has(prefix, tag) || e.tag == tag
  {
    var more := prefix + [e];
    assert more[|prefix|] == e;
    if Has(prefix, tag) {
      var k :| 0 <= k < |prefix| && prefix[k].tag == tag;
      assert more[k].tag == tag;
    }
  }

  /** The cases of the scan that go on. */
  predicate Legal(state: Expect, users: set<nat>, groups: set<nat>, e: Entry) {
    if e.tag == USER_OBJ then state == ExpectUserObj
    else if e.tag == USER then state == ExpectUsers && e.id !in users
    else if e.tag == GROUP_OBJ then state == ExpectUsers
    else if e.tag == GROUP then state == ExpectGroups && e.id !in groups
    else if e.tag == MASK then state == ExpectGroups
    else e.tag == OTHER && (state == ExpectGroups || state == ExpectOther)
  }

  function NextState(state: Expect, e: Entry): Expect {
    if e.tag == USER_OBJ then ExpectUsers
    else if e.tag == GROUP_OBJ then ExpectGroups
    else if e.tag == MASK then ExpectOther
    else if e.tag == OTHER then Done
    else state
  }

  lemma AdvanceOrder(prefix: seq<Entry>, state: Expect, users: set<nat>, groups: set<nat>, named: bool, mask: bool,
                     e: Entry)
    requires InOrder(prefix) && Scanned(prefix, state, users, groups, named, mask) && WellFormed(e)
    requires Legal(state, users, groups, e)
    ensures InOrder(prefix + [e])
  {
    hide Has;
    forall k | 0 <= k < |prefix| ensures Before(prefix[k], e) {
      assert WellFormed(prefix[k]) && prefix[k].tag <= Highest(state);
      assert prefix[k].tag == e.tag ==> prefix[k].id in Ids(prefix, e.tag);
    }
  }

  lemma IdsPush(prefix: seq<Entry>, e: Entry, tag: nat)
    ensures Ids(prefix + [e], tag) == if e.tag == tag then Ids(prefix, tag) + {e.id} else Ids(prefix, tag)
  {
    var more := prefix + [e];
    assert more[|prefix|] == e && forall k :: 0 <= k < |prefix| ==> more[k] == prefix[k];
    forall id | id in Ids(prefix, tag) ensures id in Ids(more, tag) {
      var k :| 0 <= k < |prefix| && prefix[k].tag == tag && prefix[k].id == id;
      assert more[k].tag == tag && more[k].id == id;
    }
  }

  lemma AdvanceKeeps(prefix: seq<Entry>, state: Expect, users: set<nat>, groups: set<nat>, named: bool, mask: bool,
                     e: Entry)
    requires Scanned(prefix, state, users, groups, named, mask) && WellFormed(e) && Legal(state, users, groups, e)
    ensures Scanned(prefix + [e], NextState(state, e), if e.tag == USER then users + {e.id} else users,
                    if e.tag == GROUP then groups + {e.id} else groups, named || Named(e), mask || e.tag == MASK)
  {
    IdsPush(prefix, e, USER);
    IdsPush(prefix, e, GROUP);
    HasPush(prefix, e, USER_OBJ);
    HasPush(prefix, e, USER);
    HasPush(prefix, e, GROUP_OBJ);
    HasPush(prefix, e, GROUP);
    HasPush(prefix, e, MASK);
    HasPush(prefix, e, OTHER);
    hide Has, Ids;
  }

  /** A lower entry that has not come cannot come after a higher one. */
  lemma MissingLower(entries: seq<Entry>, i: nat, tag: nat)
    requires i < |entries| && !Has(entries[..i], tag) && tag < entries[i].tag
    ensures InOrder(entries) ==> !Has(entries, tag)
  {
    forall k | 0 <= k < i ensures entries[k].tag != tag {
      assert entries[..i][k] == entries[k];
    }
    if k :| 0 <= k < |entries| && entries[k].tag == tag {
      assert i < k && !Before(entries[i], entries[k]);
    }
  }

  /** An entry that came at least as high forbids this one. */
  lemma CameHigher(entries: seq<Entry>, i: nat, tag: nat)
    requires i < |entries| && Has(entries[..i], tag)
    requires (entries[i].tag < tag || (entries[i].tag == tag && !Named(entries[i])))
    ensures !InOrder(entries)
  {
    var k :| 0 <= k < |entries[..i]| && entries[..i][k].tag == tag;
    assert !Before(entries[k], entries[i]);
  }

  lemma SameId(entries: seq<Entry>, i: nat)
    requires i < |entries| && entries[i].id in Ids(entries[..i], entries[i].tag)
    ensures !InOrder(entries)
  {
    var k :| 0 <= k < |entries[..i]| && entries[..i][k].tag == entries[i].tag && entries[..i][k].id == entries[i].id;
    assert !Before(entries[k], entries[i]);
  }

  /** An entry the scan has no place for breaks the grammar of the whole sequence. */
  lemma RejectMeans(entries: seq<Entry>, i: nat, state: Expect, users: set<nat>, groups: set<nat>, named: bool,
                    mask: bool)
    requires i < |entries| && Scanned(entries[..i], state, users, groups, named, mask)
    requires WellFormed(entries[i]) && !Legal(state, users, groups, entries[i])
    ensures !Grammar(entries)
  {
    hide InOrder, Has, Ids;
    var e := entries[i];
    match state {
      case ExpectUserObj => MissingLower(entries, i, USER_OBJ);
      case ExpectUsers =>
        if e.tag > GROUP_OBJ {
          MissingLower(entries, i, GROUP_OBJ);
        } else if e.tag == USER {
          SameId(entries, i);
        } else {
          CameHigher(entries, i, USER_OBJ);
        }
      case ExpectGroups => if e.tag == GROUP { SameId(entries, i); } else { CameHigher(entries, i, GROUP_OBJ); }
      case ExpectOther => CameHigher(entries, i, MASK);
      case Done => CameHigher(entries, i, OTHER);
    }
  }

  /** `PosixAcl::Validate`. */
  method Validate(entries: seq<Entry>) returns (ok: bool)
    requires forall k :: 0 <= k < |entries| ==> entries[k].id <= UNDEFINED_ID
    ensures ok <==> Grammar(entries)
  {
    hide Has, Grammar, Scanned, Legal, InOrder;
    if Grammar(entries) {
      GrammarSize(entries);
    }
    if |entries| < 3 {
      return false;
    }
    var state, users: set<nat>, groups: set<nat>, named, mask := ExpectUserObj, {}, {}, false, false;
    ScanNothing(entries[..0]);
    for i := 0 to |entries|
      invariant InOrder(entries[..i]) && Scanned(entries[..i], state, users, groups, named, mask)
    {
      var e := entries[i];
      assert entries[..i + 1] == entries[..i] + [e];
      if e.perm >= 8 || (Named(e) && e.id == UNDEFINED_ID) || (!Named(e) && e.id != UNDEFINED_ID) || !Known(e.tag) {
        Malformed(entries, i);
        return false;
      }
      if !Legal(state, users, groups, e) {
        RejectMeans(entries, i, state, users, groups, named, mask);
        return false;
      }
      AdvanceOrder(entries[..i], state, users, groups, named, mask, e);
      AdvanceKeeps(entries[..i], state, users, groups, named, mask, e);
      users := if e.tag == USER then users + {e.id} else users;
      groups := if e.tag == GROUP then groups + {e.id} else groups;
      named, mask := named || Named(e), mask || e.tag == MASK;
      state := NextState(state, e);
    }
    assert entries[..|entries|] == entries;
    ScanEnds(entries, state, users, groups, named, mask);
    return state == Done && (named ==> mask);
  }

  lemma ScanNothing(none: seq<Entry>)
    requires none == []
    ensures InOrder(none) && Scanned(none, ExpectUserObj, {}, {}, false, false)
  {
  }

  lemma ScanEnds(entries: seq<Entry>, state: Expect, users: set<nat>, groups: set<nat>, named: bool, mask: bool)
    requires InOrder(entries) && Scanned(entries, state, users, groups, named, mask)
    ensures Grammar(entries) <==> state == Done && (named ==> mask)
  {
    hide Has;
  }

  lemma Malformed(entries: seq<Entry>, i: nat)
    requires i < |entries| && !WellFormed(entries[i])
    ensures !Grammar(entries)
  {
  }

  lemma GrammarSize(entries: seq<Entry>)
    requires Grammar(entries)
    ensures |entries| >= 3
  {
    var a :| 0 <= a < |entries| && entries[a].tag == USER_OBJ;
    var b :| 0 <= b < |entries| && entries[b].tag == GROUP_OBJ;
    var c :| 0 <= c < |entries| && entries[c].tag == OTHER;
    LowerFirst(entries, a, b);
    LowerFirst(entries, b, c);
  }

  lemma LowerFirst(entries: seq<Entry>, a: nat, b: nat)
    requires InOrder(entries) && a < |entries| && b < |entries| && entries[a].tag < entries[b].tag
    ensures a < b
  {
    if b < a {
      assert false;
    }
  }

  // ---- The binary form ----

  function Le16(v: nat): (r: seq<byte>)
    requires v < 0x1_0000
    ensures |r| == 2
  {
    [v % 256, v / 256]
  }

  function Le32(v: nat): (r: seq<byte>)
    requires v <= UINT32_MAX
    ensures |r| == 4
  {
    Le16(v % 0x1_0000) + Le16(v / 0x1_0000)
  }

  function ReadLe16(data: seq<byte>, offset: nat): (v: nat)
    requires offset + 2 <= |data|
    ensures v < 0x1_0000
  {
    data[offset] as int + 256 * (data[offset + 1] as int)
  }

  function ReadLe32(data: seq<byte>, offset: nat): (v: nat)
    requires offset + 4 <= |data|
    ensures v <= UINT32_MAX
  {
    ReadLe16(data, offset) + 0x1_0000 * ReadLe16(data, offset + 2)
  }

  lemma Le16RoundTrip(v: nat, data: seq<byte>, offset: nat)
    requires v < 0x1_0000 && offset + 2 <= |data|
    ensures data[offset..offset + 2] == Le16(v) <==> ReadLe16(data, offset) == v
  {
    var part := data[offset..offset + 2];
    assert part[0] == data[offset] && part[1] == data[offset + 1];
    if ReadLe16(data, offset) == v {
      assert part == Le16(v);
    }
  }

  lemma Le32RoundTrip(v: nat, data: seq<byte>, offset: nat)
    requires v <= UINT32_MAX && offset + 4 <= |data|
    ensures data[offset..offset + 4] == Le32(v) <==> ReadLe32(data, offset) == v
  {
    hide Le16, ReadLe16;
    var low, high := data[offset..offset + 2], data[offset + 2..offset + 4];
    Le16RoundTrip(v % 0x1_0000, data, offset);
    Le16RoundTrip(v / 0x1_0000, data, offset + 2);
    assert data[offset..offset + 4] == low + high;
    if data[offset..offset + 4] == Le32(v) {
      assert low == Le32(v)[..2] && high == Le32(v)[2..];
    }
  }

  predicate Encodable(e: Entry) { e.tag < 0x1_0000 && e.perm < 0x1_0000 && e.id <= UINT32_MAX }

  function EntryBytes(e: Entry): (r: seq<byte>)
    requires Encodable(e)
    ensures |r| == ENTRY_SIZE
  {
    Le16(e.tag) + Le16(e.perm) + Le32(e.id)
  }

  function EntryAt(data: seq<byte>, offset: nat): (e: Entry)
    requires offset + ENTRY_SIZE <= |data|
    ensures Encodable(e)
  {
    Entry(ReadLe16(data, offset), ReadLe16(data, offset + 2), ReadLe32(data, offset + 4))
  }

  lemma EntryRoundTrip(e: Entry, data: seq<byte>, offset: nat)
    requires Encodable(e) && offset + ENTRY_SIZE <= |data|
    ensures data[offset..offset + ENTRY_SIZE] == EntryBytes(e) <==> EntryAt(data, offset) == e
  {
    hide Le16, Le32, ReadLe16, ReadLe32;
    var part := data[offset..offset + ENTRY_SIZE];
    var a, b, c := data[offset..offset + 2], data[offset + 2..offset + 4], data[offset + 4..offset + 8];
    Le16RoundTrip(e.tag, data, offset);
    Le16RoundTrip(e.perm, data, offset + 2);
    Le32RoundTrip(e.id, data, offset + 4);
    assert part == a + b + c;
    if part == EntryBytes(e) {
      assert a == part[..2] == Le16(e.tag) && b == part[2..4] == Le16(e.perm) && c == part[4..] == Le32(e.id);
    }
  }

  ghost predicate AllEncodable(entries: seq<Entry>) { forall k :: 0 <= k < |entries| ==> Encodable(entries[k]) }

  function Serialized(entries: seq<Entry>, n: nat): (r: seq<byte>)
    requires n <= |entries| && AllEncodable(entries)
    ensures |r| == HEADER_SIZE + n * ENTRY_SIZE
  {
    if n == 0 then Le32(VERSION) else Serialized(entries, n - 1) + EntryBytes(entries[n - 1])
  }

  method Serialize(entries: seq<Entry>) returns (value: seq<byte>)
    requires AllEncodable(entries)
    ensures value == Serialized(entries, |entries|)
  {
    hide EntryBytes;
    value := Le32(VERSION);
    for i := 0 to |entries|
      invariant value == Serialized(entries, i)
    {
      value := value + EntryBytes(entries[i]);
    }
  }

  predicate WholeEntries(data: seq<byte>) { HEADER_SIZE <= |data| && (|data| - HEADER_SIZE) % ENTRY_SIZE == 0 }

  function EntryCount(data: seq<byte>): nat
    requires WholeEntries(data)
  {
    (|data| - HEADER_SIZE) / ENTRY_SIZE
  }

  function EntriesOf(data: seq<byte>): (r: seq<Entry>)
    requires WholeEntries(data)
    ensures |r| == EntryCount(data)
    ensures forall k :: 0 <= k < |r| ==> r[k] == EntryAt(data, HEADER_SIZE + k * ENTRY_SIZE)
  {
    seq(EntryCount(data), k requires 0 <= k < EntryCount(data) => EntryAt(data, HEADER_SIZE + k * ENTRY_SIZE))
  }

  /** Bytes that `Parse` accepts. */
  ghost predicate Parsable(data: seq<byte>) {
    WholeEntries(data) && ReadLe32(data, 0) == VERSION && Grammar(EntriesOf(data))
  }

  method Parse(data: seq<byte>) returns (r: Result<seq<Entry>>)
    ensures r.Success? <==> Parsable(data)
    ensures r.Success? ==> r.value == EntriesOf(data)
    ensures r.Failure? ==> r.error == InvalidArgument
  {
    hide Grammar;
    if |data| < HEADER_SIZE || (|data| - HEADER_SIZE) % ENTRY_SIZE != 0 {
      return Failure(InvalidArgument);
    }
    if ReadLe32(data, 0) != VERSION {
      return Failure(InvalidArgument);
    }
    var count := (|data| - HEADER_SIZE) / ENTRY_SIZE;
    var entries := [];
    for i := 0 to count
      invariant entries == EntriesOf(data)[..i]
    {
      entries := entries + [EntryAt(data, HEADER_SIZE + i * ENTRY_SIZE)];
    }
    assert entries == EntriesOf(data);
    var ok := Validate(entries);
    return if ok then Success(entries) else Failure(InvalidArgument);
  }

  lemma {:induction false} SerializedPrefix(entries: seq<Entry>, n: nat, k: nat)
    requires k <= n <= |entries| && AllEncodable(entries)
    ensures Serialized(entries, k) <= Serialized(entries, n)
  {
    if k < n {
      SerializedPrefix(entries, n - 1, k);
    }
  }

  lemma SerializedPart(entries: seq<Entry>, k: nat)
    requires k < |entries| && AllEncodable(entries)
    ensures var data := Serialized(entries, |entries|);
            && HEADER_SIZE + (k + 1) * ENTRY_SIZE <= |data|
            && data[HEADER_SIZE + k * ENTRY_SIZE..HEADER_SIZE + (k + 1) * ENTRY_SIZE] == EntryBytes(entries[k])
  {
    hide EntryBytes;
    var data, upTo := Serialized(entries, |entries|), Serialized(entries, k + 1);
    SerializedPrefix(entries, |entries|, k + 1);
    assert upTo == Serialized(entries, k) + EntryBytes(entries[k]);
    assert data[HEADER_SIZE + k * ENTRY_SIZE..HEADER_SIZE + (k + 1) * ENTRY_SIZE] ==
           upTo[HEADER_SIZE + k * ENTRY_SIZE..];
  }

  /** The bytes of the attribute: version 2, then per entry its tag, permissions and identity, low bytes first. */
  lemma SerializedLayout(entries: seq<Entry>, k: nat)
    requires k < |entries| && AllEncodable(entries)
    ensures var data, at, e := Serialized(entries, |entries|), 4 + 8 * k, entries[k];
            && |data| == 4 + 8 * |entries| && data[..4] == [2, 0, 0, 0] && at + 8 <= |data|
            && data[at..at + 8] == [e.tag % 256, e.tag / 256, e.perm % 256, e.perm / 256,
                                    e.id % 256, e.id / 256 % 256, e.id / 0x1_0000 % 256, e.id / 0x100_0000]
  {
    hide Serialized, EntryBytes;
    var data, at, e := Serialized(entries, |entries|), 4 + 8 * k, entries[k];
    SerializedPart(entries, k);
    SerializedStart(entries, |entries|);
    EntryLayout(e);
  }

  lemma EntryLayout(e: Entry)
    requires Encodable(e)
    ensures EntryBytes(e) == [e.tag % 256, e.tag / 256, e.perm % 256, e.perm / 256,
                              e.id % 256, e.id / 256 % 256, e.id / 0x1_0000 % 256, e.id / 0x100_0000]
  {
    IdBytes(e.id);
    assert e.id / 0x1_0000 % 256 == e.id / 0x1_0000 % 0x1_0000 % 256;
  }

  lemma IdBytes(id: nat)
    requires id <= UINT32_MAX
    ensures id % 0x1_0000 % 256 == id % 256 && id % 0x1_0000 / 256 == id / 256 % 256
    ensures id / 0x1_0000 / 256 == id / 0x100_0000
  {
  }

  lemma {:induction false} SerializedStart(entries: seq<Entry>, n: nat)
    requires n <= |entries| && AllEncodable(entries)
    ensures |Serialized(entries, n)| == 4 + 8 * n && Serialized(entries, n)[..4] == [2, 0, 0, 0]
  {
    if n > 0 {
      SerializedStart(entries, n - 1);
    }
  }

  /** Reading back what was written. */
  lemma ParseOfSerialize(entries: seq<Entry>)
    requires AllEncodable(entries)
    ensures var data := Serialized(entries, |entries|);
            WholeEntries(data) && ReadLe32(data, 0) == VERSION && EntriesOf(data) == entries
  {
    hide EntryBytes, EntryAt, Serialized;
    var data := Serialized(entries, |entries|);
    SerializedHeader(entries);
    forall k | 0 <= k < |entries| ensures EntriesOf(data)[k] == entries[k] {
      SerializedPart(entries, k);
      EntryRoundTrip(entries[k], data, HEADER_SIZE + k * ENTRY_SIZE);
    }
  }

  lemma SerializedHeader(entries: seq<Entry>)
    requires AllEncodable(entries)
    ensures ReadLe32(Serialized(entries, |entries|), 0) == VERSION
  {
    SerializedPrefix(entries, |entries|, 0);
    Le32RoundTrip(VERSION, Serialized(entries, |entries|), 0);
  }

  lemma {:induction false} SerializeUpTo(data: seq<byte>, entries: seq<Entry>, n: nat)
    requires WholeEntries(data) && ReadLe32(data, 0) == VERSION && entries == EntriesOf(data) && n <= |entries|
    ensures AllEncodable(entries) && Serialized(entries, n) == data[..HEADER_SIZE + n * ENTRY_SIZE]
  {
    hide EntryBytes, EntryAt;
    if n == 0 {
      Le32RoundTrip(VERSION, data, 0);
      assert data[0..4] == data[..HEADER_SIZE];
    } else {
      SerializeUpTo(data, entries, n - 1);
      EntryRoundTrip(entries[n - 1], data, HEADER_SIZE + (n - 1) * ENTRY_SIZE);
      var offset := HEADER_SIZE + (n - 1) * ENTRY_SIZE;
      assert data[..offset + ENTRY_SIZE] == data[..offset] + data[offset..offset + ENTRY_SIZE];
    }
  }

  /** Writing back what was read. */
  lemma SerializeOfParse(data: seq<byte>)
    requires WholeEntries(data) && ReadLe32(data, 0) == VERSION
    ensures AllEncodable(EntriesOf(data)) && Serialized(EntriesOf(data), |EntriesOf(data)|) == data
  {
    SerializeUpTo(data, EntriesOf(data), |EntriesOf(data)|);
    assert data[..HEADER_SIZE + EntryCount(data) * ENTRY_SIZE] == data;
  }

  // ---- Permission classes ----

  lemma HasTail(entries: seq<Entry>, tag: nat)
    requires Has(entries, tag) && entries[0].tag != tag
    ensures Has(entries[1..], tag)
  {
    var k :| 0 <= k < |entries| && entries[k].tag == tag;
    assert entries[1..][k - 1].tag == tag;
  }

  /** `std::find_if` by tag. */
  function Index(entries: seq<Entry>, tag: nat): (i: nat)
    requires Has(entries, tag)
    ensures i < |entries| && entries[i].tag == tag
    ensures forall k :: 0 <= k < i ==> entries[k].tag != tag
  {
    if entries[0].tag == tag then 0
    else
      HasTail(entries, tag);
      1 + Index(entries[1..], tag)
  }

  /** The entry the group permission bits stand for. */
  function GroupClass(entries: seq<Entry>): nat { if Has(entries, MASK) then MASK else GROUP_OBJ }

  predicate Complete(entries: seq<Entry>) { Has(entries, USER_OBJ) && Has(entries, GROUP_OBJ) && Has(entries, OTHER) }

  function PermOf(entries: seq<Entry>, tag: nat): nat
    requires Has(entries, tag)
  {
    entries[Index(entries, tag)].perm
  }

  /** The nine permission bits an ACL stands for. */
  function PermissionsMode(entries: seq<Entry>): nat
    requires Complete(entries)
  {
    64 * PermOf(entries, USER_OBJ) + 8 * PermOf(entries, GroupClass(entries)) + PermOf(entries, OTHER)
  }

  predicate Minimal(entries: seq<Entry>) {
    |entries| == 3 && entries[0].tag == USER_OBJ && entries[1].tag == GROUP_OBJ && entries[2].tag == OTHER
  }

  function SetPerm(entries: seq<Entry>, tag: nat, perm: nat): (r: seq<Entry>)
    requires Has(entries, tag)
    ensures |r| == |entries| && forall k :: 0 <= k < |r| ==> r[k].tag == entries[k].tag && r[k].id == entries[k].id
    ensures forall k :: 0 <= k < |r| && entries[k].tag != tag ==> r[k] == entries[k]
  {
    var i := Index(entries, tag);
    entries[i := entries[i].(perm := perm)]
  }

  /** Same entries, with other permissions. */
  ghost predicate SameShape(a: seq<Entry>, b: seq<Entry>) {
    |a| == |b| && forall k :: 0 <= k < |a| ==> a[k].tag == b[k].tag && a[k].id == b[k].id
  }

  /** Only the owner's, the group class's and the others' permissions may differ. */
  ghost predicate Reclassed(a: seq<Entry>, b: seq<Entry>) {
    && SameShape(a, b)
    && forall k :: 0 <= k < |a| && a[k].tag != USER_OBJ && !ForGroup(a, k) && a[k].tag != OTHER ==> b[k] == a[k]
  }

  /** The entry's permissions are what the group bits of the mode stand for: the mask's, or else the group's. */
  predicate ForGroup(entries: seq<Entry>, k: nat)
    requires k < |entries|
  {
    entries[k].tag == MASK || (entries[k].tag == GROUP_OBJ && !Has(entries, MASK))
  }

  /** The list says of owner, group class and others what the mode says. */
  ghost predicate Agrees(entries: seq<Entry>, mode: nat) {
    forall k :: 0 <= k < |entries| ==>
                  && (entries[k].tag == USER_OBJ ==> entries[k].perm == mode / 64 % 8)
                  && (ForGroup(entries, k) ==> entries[k].perm == mode / 8 % 8)
                  && (entries[k].tag == OTHER ==> entries[k].perm == mode % 8)
  }

  /** Nothing is said that a mode could not say. */
  ghost predicate OnlyClasses(entries: seq<Entry>) {
    forall k :: 0 <= k < |entries| ==> entries[k].tag in {USER_OBJ, GROUP_OBJ, OTHER}
  }

  /** A bit of the narrower mode is one of the inherited entry and of the request. */
  ghost predicate NarrowsAt(entries: seq<Entry>, k: nat, i: nat, requested: nat, mode: nat)
    requires k < |entries|
  {
    var p := entries[k].perm;
    && (entries[k].tag == USER_OBJ ==> (Bit(mode, 6 + i) <==> Bit(p, i) && Bit(requested, 6 + i)))
    && (ForGroup(entries, k) ==> (Bit(mode, 3 + i) <==> Bit(p, i) && Bit(requested, 3 + i)))
    && (entries[k].tag == OTHER ==> (Bit(mode, i) <==> Bit(p, i) && Bit(requested, i)))
  }

  ghost predicate Narrows(entries: seq<Entry>, requested: nat, mode: nat) {
    forall k: nat, i: nat :: k < |entries| && i < 3 ==> NarrowsAt(entries, k, i, requested, mode)
  }

  lemma SameShapeHas(a: seq<Entry>, b: seq<Entry>, tag: nat)
    requires SameShape(a, b)
    ensures Has(a, tag) <==> Has(b, tag)
  {
  }

  lemma {:induction false} SameShapeIndex(a: seq<Entry>, b: seq<Entry>, tag: nat)
    requires SameShape(a, b) && Has(a, tag) && Has(b, tag)
    ensures Index(a, tag) == Index(b, tag)
  {
    if a[0].tag != tag {
      HasTail(a, tag);
      HasTail(b, tag);
      SameShapeIndex(a[1..], b[1..], tag);
    }
  }

  /** The grammar asks nothing of permissions but that they are permissions. */
  lemma SameShapeGrammar(a: seq<Entry>, b: seq<Entry>)
    requires SameShape(a, b) && Grammar(a) && forall k :: 0 <= k < |b| ==> b[k].perm < 8
    ensures Grammar(b) && (Minimal(b) <==> Minimal(a)) && GroupClass(b) == GroupClass(a)
  {
    SameShapeHas(a, b, USER_OBJ);
    SameShapeHas(a, b, USER);
    SameShapeHas(a, b, GROUP_OBJ);
    SameShapeHas(a, b, GROUP);
    SameShapeHas(a, b, MASK);
    SameShapeHas(a, b, OTHER);
    hide Has;
  }

  lemma SetPermAt(entries: seq<Entry>, tag: nat, perm: nat, other: nat)
    requires Has(entries, tag) && Has(entries, other)
    ensures SameShape(entries, SetPerm(entries, tag, perm)) && Has(SetPerm(entries, tag, perm), other)
    ensures PermOf(SetPerm(entries, tag, perm), other) == if other == tag then perm else PermOf(entries, other)
  {
    var next := SetPerm(entries, tag, perm);
    SameShapeHas(entries, next, other);
    SameShapeIndex(entries, next, other);
  }

  /** The three classes get the given permissions, whatever else the list names. */
  function SetClasses(entries: seq<Entry>, user: nat, group: nat, other: nat): seq<Entry>
    requires Grammar(entries)
  {
    var a := SetPerm(entries, USER_OBJ, user);
    SetPermAt(entries, USER_OBJ, user, GroupClass(entries));
    SetPermAt(entries, USER_OBJ, user, OTHER);
    var b := SetPerm(a, GroupClass(entries), group);
    SetPermAt(a, GroupClass(entries), group, OTHER);
    SetPerm(b, OTHER, other)
  }

  lemma SetPermKeeps(entries: seq<Entry>, tag: nat, perm: nat)
    requires Grammar(entries) && Has(entries, tag) && perm < 8
    ensures var r := SetPerm(entries, tag, perm);
            Grammar(r) && SameShape(entries, r) && (Minimal(r) <==> Minimal(entries))
            && GroupClass(r) == GroupClass(entries)
  {
    PermsSmall(entries);
    SameShapeGrammar(entries, SetPerm(entries, tag, perm));
  }

  lemma GrammarHas(entries: seq<Entry>)
    requires Grammar(entries)
    ensures Complete(entries) && Has(entries, GroupClass(entries)) && GroupClass(entries) != USER_OBJ
    ensures GroupClass(entries) != OTHER
  {
  }

  lemma SameShapeTwice(a: seq<Entry>, b: seq<Entry>, c: seq<Entry>)
    requires SameShape(a, b) && SameShape(b, c)
    ensures SameShape(a, c)
  {
  }

  lemma SetClassesKeeps(entries: seq<Entry>, user: nat, group: nat, other: nat)
    requires Grammar(entries)
    ensures Reclassed(entries, SetClasses(entries, user, group, other))
  {
    hide Grammar, Has, Index;
    GrammarHas(entries);
    SetPermAt(entries, USER_OBJ, user, GroupClass(entries));
    SetPermAt(entries, USER_OBJ, user, OTHER);
    SetPermAt(SetPerm(entries, USER_OBJ, user), GroupClass(entries), group, OTHER);
  }

  lemma SetClassesMeans(entries: seq<Entry>, user: nat, group: nat, other: nat)
    requires Grammar(entries) && user < 8 && group < 8 && other < 8
    ensures var r := SetClasses(entries, user, group, other);
            && Reclassed(entries, r) && Grammar(r) && Complete(r) && (Minimal(r) <==> Minimal(entries))
            && PermissionsMode(r) == 64 * user + 8 * group + other
  {
    SetClassesKeeps(entries, user, group, other);
    var tag := GroupClass(entries);
    GrammarHas(entries);
    var a := SetPerm(entries, USER_OBJ, user);
    SetPermKeeps(entries, USER_OBJ, user);
    GrammarHas(a);
    var b := SetPerm(a, tag, group);
    SetPermKeeps(a, tag, group);
    GrammarHas(b);
    var r := SetPerm(b, OTHER, other);
    SetPermKeeps(b, OTHER, other);
    GrammarHas(r);
    assert r == SetClasses(entries, user, group, other);
    hide Grammar, Has, PermOf, SetPerm, Minimal, SameShape, Reclassed, GroupClass, SetClasses;
    SetPermAt(entries, USER_OBJ, user, USER_OBJ);
    SetPermAt(a, tag, group, USER_OBJ);
    SetPermAt(a, tag, group, tag);
    SetPermAt(b, OTHER, other, USER_OBJ);
    SetPermAt(b, OTHER, other, tag);
    SetPermAt(b, OTHER, other, OTHER);
    SameShapeTwice(entries, a, b);
    SameShapeTwice(entries, b, r);
  }

  lemma PermsSmall(entries: seq<Entry>)
    requires Grammar(entries)
    ensures forall k :: 0 <= k < |entries| ==> entries[k].perm < 8 && Encodable(entries[k])
  {
  }

  /** `ApplyMode`. */
  function ApplyMode(entries: seq<Entry>, mode: nat): seq<Entry>
    requires Grammar(entries)
  {
    SetClasses(entries, mode / 64 % 8, mode / 8 % 8, mode % 8)
  }

  /** `RestrictToMode`. */
  function RestrictToMode(entries: seq<Entry>, mode: nat): seq<Entry>
    requires Grammar(entries)
  {
    SetClasses(entries, And(PermOf(entries, USER_OBJ), mode / 64 % 8),
               And(PermOf(entries, GroupClass(entries)), mode / 8 % 8),
               And(PermOf(entries, OTHER), mode % 8))
  }

  lemma ApplyModeMeans(entries: seq<Entry>, mode: nat)
    requires Grammar(entries)
    ensures var r := ApplyMode(entries, mode);
            && Reclassed(entries, r) && Grammar(r) && Complete(r) && (Minimal(r) <==> Minimal(entries))
            && PermissionsMode(r) == mode % 512 && Agrees(r, mode)
  {
    hide Grammar, Agrees, Reclassed, Minimal, SetClasses, PermissionsMode;
    SetClassesMeans(entries, mode / 64 % 8, mode / 8 % 8, mode % 8);
    OctalDigits(mode);
    ModeAgrees(ApplyMode(entries, mode), mode);
  }

  lemma OctalDigits(mode: nat)
    ensures 64 * (mode / 64 % 8) + 8 * (mode / 8 % 8) + mode % 8 == mode % 512
  {
    var a := mode / 8;
    var b := a / 8;
    var c := b / 8;
    assert mode == 8 * a + mode % 8 && a == 8 * b + a % 8 && b == 8 * c + b % 8;
    OctalDigit(mode, 64, b, 8 * (a % 8) + mode % 8);
    OctalDigit(mode, 512, c, 64 * (b % 8) + 8 * (a % 8) + mode % 8);
  }

  lemma OctalDigit(mode: nat, unit: nat, q: nat, r: nat)
    requires (unit == 64 || unit == 512) && r < unit && mode == unit * q + r
    ensures mode / unit == q && mode % unit == r
  {
  }

  lemma RestrictClasses(entries: seq<Entry>, mode: nat)
    requires Grammar(entries)
    ensures var r := RestrictToMode(entries, mode);
            && Reclassed(entries, r) && Grammar(r) && Complete(r) && (Minimal(r) <==> Minimal(entries))
            && PermissionsMode(r) ==
               64 * And(PermOf(entries, USER_OBJ), mode / 64 % 8) + 8 * And(PermOf(entries, GroupClass(entries)),
                                                                            mode / 8 % 8) +
               And(PermOf(entries, OTHER), mode % 8)
            && PermissionsMode(r) < 512
  {
    SetClassesMeans(entries, And(PermOf(entries, USER_OBJ), mode / 64 % 8),
                    And(PermOf(entries, GroupClass(entries)), mode / 8 % 8),
                    And(PermOf(entries, OTHER), mode % 8));
  }

  /** Each of these tags stands once. */
  lemma OnlyOne(entries: seq<Entry>, tag: nat, k: nat)
    requires Grammar(entries) && tag != USER && tag != GROUP && k < |entries| && entries[k].tag == tag
    ensures Has(entries, tag) && Index(entries, tag) == k
  {
    var i := Index(entries, tag);
    assert i < k ==> Before(entries[i], entries[k]);
  }

  /** The nine bits of a mode say exactly what the list says of the three classes. */
  lemma ModeAgrees(entries: seq<Entry>, mode: nat)
    requires Grammar(entries)
    ensures Complete(entries) && (PermissionsMode(entries) == mode % 512 <==> Agrees(entries, mode))
  {
    GrammarHas(entries);
    PermsSmall(entries);
    OctalDigits(mode);
    var u, g, o := PermOf(entries, USER_OBJ), PermOf(entries, GroupClass(entries)), PermOf(entries, OTHER);
    forall k: nat | k < |entries|
      ensures entries[k].tag == USER_OBJ ==> entries[k].perm == u
      ensures ForGroup(entries, k) ==> entries[k].perm == g
      ensures entries[k].tag == OTHER ==> entries[k].perm == o
    {
      if entries[k].tag == USER_OBJ || ForGroup(entries, k) || entries[k].tag == OTHER {
        OnlyOne(entries, entries[k].tag, k);
      }
    }
    if Agrees(entries, mode) {
      assert entries[Index(entries, GroupClass(entries))].perm == g;
    }
    hide Grammar, Has, Index;
    ThreeDigits(u, g, o, mode / 64 % 8, mode / 8 % 8, mode % 8);
  }

  lemma ThreeDigits(a: nat, b: nat, c: nat, x: nat, y: nat, z: nat)
    requires a < 8 && b < 8 && c < 8 && x < 8 && y < 8 && z < 8
    ensures 64 * a + 8 * b + c == 64 * x + 8 * y + z <==> a == x && b == y && c == z
  {
  }

  lemma MinimalExactly(entries: seq<Entry>)
    requires Grammar(entries)
    ensures Minimal(entries) <==> OnlyClasses(entries)
  {
    if OnlyClasses(entries) {
      var u, g, o := Index(entries, USER_OBJ), Index(entries, GROUP_OBJ), Index(entries, OTHER);
      assert u < g < o;
      OnlyOne(entries, entries[0].tag, 0);
      OnlyOne(entries, entries[1].tag, 1);
      OnlyOne(entries, entries[2].tag, 2);
      OnlyOne(entries, entries[|entries| - 1].tag, |entries| - 1);
    }
  }

  /** Restricting leaves, of each class, the bits that the entry and the mode both have. */
  lemma RestrictNarrows(entries: seq<Entry>, requested: nat, mode: nat)
    requires Grammar(entries) && Complete(RestrictToMode(entries, requested))
    requires PermissionsMode(RestrictToMode(entries, requested)) == mode % 512
    ensures Narrows(entries, requested, mode)
  {
    RestrictClasses(entries, requested);
    GrammarHas(entries);
    PermsSmall(entries);
    OctalDigits(mode);
    var u, g, o := PermOf(entries, USER_OBJ), PermOf(entries, GroupClass(entries)), PermOf(entries, OTHER);
    ThreeDigits(And(u, requested / 64 % 8), And(g, requested / 8 % 8), And(o, requested % 8),
                mode / 64 % 8, mode / 8 % 8, mode % 8);
    forall k: nat, i: nat | k < |entries| && i < 3 ensures NarrowsAt(entries, k, i, requested, mode) {
      DigitBit(mode, i);
      DigitBit(requested, i);
      AndBit(u, requested / 64 % 8, i);
      AndBit(g, requested / 8 % 8, i);
      AndBit(o, requested % 8, i);
      if entries[k].tag == USER_OBJ || ForGroup(entries, k) || entries[k].tag == OTHER {
        OnlyOne(entries, entries[k].tag, k);
      }
    }
  }

  lemma RestrictMeans(entries: seq<Entry>, mode: nat)
    requires Grammar(entries)
    ensures var r := RestrictToMode(entries, mode);
            && Reclassed(entries, r) && Grammar(r) && Complete(r) && (Minimal(r) <==> Minimal(entries))
            && PermissionsMode(r) < 512 && Agrees(r, PermissionsMode(r)) && Narrows(entries, mode, PermissionsMode(r))
  {
    hide Grammar, Reclassed, Minimal, Agrees, Narrows, RestrictToMode, PermissionsMode;
    RestrictClasses(entries, mode);
    var r := RestrictToMode(entries, mode);
    ModeAgrees(r, PermissionsMode(r));
    RestrictNarrows(entries, mode, PermissionsMode(r));
  }

  // ---- The inode ----

  const MAX_VALUE_SIZE := 64 * 1024

  datatype FileKind = Regular | Directory | Symlink | Special

  datatype SetMode = Upsert | CreateOnly | ReplaceOnly

  /** A stored access ACL is valid, says more than the mode can, and agrees with it. */
  ghost predicate InStep(mode: nat, access: Option<seq<byte>>) {
    access.Some? ==>
      && Parsable(access.value) && !OnlyClasses(EntriesOf(access.value))
      && Agrees(EntriesOf(access.value), mode)
  }

  /** Storing a list that satisfies the grammar. */
  lemma StoredInStep(entries: seq<Entry>, mode: nat)
    requires Grammar(entries) && !Minimal(entries) && PermissionsMode(entries) == mode % 512
    ensures AllEncodable(entries) && InStep(mode, Some(Serialized(entries, |entries|)))
    ensures EntriesOf(Serialized(entries, |entries|)) == entries
  {
    hide Grammar, PermissionsMode, Serialized, EntriesOf, Agrees, Minimal, OnlyClasses;
    PermsSmall(entries);
    ModeAgrees(entries, mode);
    MinimalExactly(entries);
    ParseOfSerialize(entries);
  }

  lemma ModeBits(mode: nat, bits: nat)
    requires bits < 512
    ensures (mode / 512 * 512 + bits) % 512 == bits && (mode / 512 * 512 + bits) / 512 == mode / 512
  {
  }

  class Inode {
    const kind: FileKind
    var mode: nat
    var access: Option<seq<byte>>
    var dflt: Option<seq<byte>>

    ghost predicate Valid()
      reads this
    {
      InStep(mode, access) && (dflt.Some? ==> kind == Directory && Parsable(dflt.value))
    }

    constructor (kind: FileKind, mode: nat)
      ensures Valid() && this.kind == kind && this.mode == mode && access == None && dflt == None
    {
      this.kind, this.mode, access, dflt := kind, mode, None, None;
    }

    /** `SetPosixAclXAttr`; `full` says that the attribute name list has no room for another name. */
    method SetAcl(isDefault: bool, value: seq<byte>, how: SetMode, full: bool) returns (status: Status)
      requires Valid()
      modifies `mode, `access, `dflt
      ensures Valid()
      ensures var present := if isDefault then old(dflt).Some? else old(access).Some?;
              status == Ok <==>
              && kind != Symlink && (isDefault ==> kind == Directory) && |value| <= MAX_VALUE_SIZE && Parsable(value)
              && (how == CreateOnly ==> !present) && (how == ReplaceOnly ==> present)
              && (full && !present ==> !isDefault && OnlyClasses(EntriesOf(value)))
      ensures status == Ok && !isDefault ==>
                && Agrees(EntriesOf(value), mode) && mode / 512 == old(mode) / 512 && dflt == old(dflt)
                && (if OnlyClasses(EntriesOf(value)) then access == None else access == Some(value))
      ensures status == Ok && isDefault ==> dflt == Some(value) && access == old(access) && mode == old(mode)
      ensures status != Ok ==> unchanged(this)
    {
      hide Grammar, PermissionsMode, EntriesOf, Serialized, Minimal, Has, Agrees, OnlyClasses;
      if kind == Symlink {
        return NotSupported;
      }
      if isDefault && kind != Directory {
        return NotPermitted;
      }
      if |value| > MAX_VALUE_SIZE {
        return OutOfRange;
      }
      var present := if isDefault then dflt.Some? else access.Some?;
      if how == CreateOnly && present {
        return AlreadyExists;
      }
      if how == ReplaceOnly && !present {
        return NoData;
      }
      var parsed := Parse(value);
      if parsed.Failure? {
        return parsed.error;
      }
      var acl := parsed.value;
      MinimalExactly(acl);
      if (isDefault || !Minimal(acl)) && !present && full {
        return OutOfRange;
      }
      GrammarHas(acl);
      SerializeOfParse(value);
      SmallMode(acl);
      ModeBits(mode, PermissionsMode(acl));
      if isDefault {
        var stored := Serialize(acl);
        dflt := Some(stored);
      } else {
        mode := mode / 512 * 512 + PermissionsMode(acl);
        ModeAgrees(acl, mode);
        if Minimal(acl) {
          access := None;
        } else {
          var stored := Serialize(acl);
          access := Some(stored);
        }
      }
      return Ok;
    }

    /** `RemovePosixAclXAttr`: the mode stays the authority. */
    method RemoveAcl(isDefault: bool) returns (status: Status)
      requires Valid()
      modifies `access, `dflt
      ensures Valid()
      ensures status == Ok <==>
              kind != Symlink && (isDefault ==> kind == Directory && old(dflt).Some?)
              && (!isDefault ==> old(access).Some?)
      ensures status == Ok ==>
                (if isDefault then dflt == None && access == old(access) else access == None && dflt == old(dflt))
      ensures status != Ok ==> unchanged(this)
    {
      hide InStep, Parsable;
      assert InStep(mode, None) by { NothingStored(mode); }
      if kind == Symlink {
        return NotSupported;
      }
      if isDefault && kind != Directory {
        return NotPermitted;
      }
      if (if isDefault then dflt.None? else access.None?) {
        return NoData;
      }
      if isDefault {
        dflt := None;
      } else {
        access := None;
      }
      return Ok;
    }

    /** The mode change of `PrepareSetAttrMutation` with `SyncPosixAccessAclForMode`. */
    method Chmod(requested: nat) returns (status: Status)
      requires Valid()
      modifies `mode, `access
      ensures Valid() && status == Ok
      ensures mode % 4096 == requested % 4096 && mode / 4096 == old(mode) / 4096
      ensures access.Some? == old(access).Some?
      ensures access.Some? ==> Reclassed(EntriesOf(old(access).value), EntriesOf(access.value))
      ensures access.Some? ==> Agrees(EntriesOf(access.value), mode)
    {
      hide Grammar, PermissionsMode, EntriesOf, Serialized, ApplyMode, Agrees, Minimal, OnlyClasses, Reclassed;
      var next := mode / 4096 * 4096 + requested % 4096;
      LowBits(mode, requested);
      if access.Some? {
        var parsed := Parse(access.value);
        MinimalExactly(parsed.value);
        ApplyModeMeans(parsed.value, next);
        var acl := ApplyMode(parsed.value, next);
        StoredInStep(acl, next);
        var stored := Serialize(acl);
        access := Some(stored);
      }
      mode := next;
      return Ok;
    }

    /** `ApplyPosixAclCreateInheritance` on a new child. */
    method Inherit(parent: Inode, umask: nat) returns (status: Status)
      requires Valid() && parent.Valid() && access.None? && dflt.None? && this != parent
      modifies `mode, `access, `dflt
      ensures Valid() && status == Ok
      ensures kind == Symlink ==> unchanged(this)
      ensures kind != Symlink ==> mode / 512 == old(mode) / 512
      ensures kind != Symlink && parent.dflt.None? ==>
                && access.None? && dflt.None?
                && forall i: nat :: i < 9 ==> (Bit(mode, i) <==> Bit(old(mode), i) && !Bit(umask, i))
      ensures kind != Symlink && parent.dflt.Some? ==>
                var inherited := EntriesOf(parent.dflt.value);
                && Narrows(inherited, old(mode), mode)
                && (access.None? <==> OnlyClasses(inherited))
                && (access.Some? ==>
                      Reclassed(inherited, EntriesOf(access.value)) && Agrees(EntriesOf(access.value), mode))
                && dflt == (if kind == Directory then parent.dflt else None)
    {
      hide Grammar, PermissionsMode, EntriesOf, Serialized, RestrictToMode, And, Minimal, Has, Agrees, OnlyClasses,
        Narrows, Bit, Reclassed;
      if kind == Symlink {
        return Ok;
      }
      if parent.dflt.None? {
        ModeBits(mode, And(mode % 512, 511 - umask % 512));
        ghost var before := mode;
        mode := mode / 512 * 512 + And(mode % 512, 511 - umask % 512);
        UmaskBits(before, umask, mode);
        return Ok;
      }
      var parsed := Parse(parent.dflt.value);
      RestrictMeans(parsed.value, mode);
      var acl := RestrictToMode(parsed.value, mode);
      ModeBits(mode, PermissionsMode(acl));
      ghost var before := mode;
      mode := mode / 512 * 512 + PermissionsMode(acl);
      RestrictNarrows(parsed.value, before, mode);
      MinimalExactly(parsed.value);
      ModeAgrees(acl, mode);
      if !Minimal(acl) {
        StoredInStep(acl, mode);
        var stored := Serialize(acl);
        access := Some(stored);
      }
      if kind == Directory {
        dflt := parent.dflt;
      }
      return Ok;
    }
  }

  lemma UmaskBits(before: nat, umask: nat, mode: nat)
    requires mode % 512 == And(before % 512, 511 - umask % 512)
    ensures forall i: nat :: i < 9 ==> (Bit(mode, i) <==> Bit(before, i) && !Bit(umask, i))
  {
    hide Bit, And;
    Powers();
    forall i: nat | i < 9 ensures Bit(mode, i) <==> Bit(before, i) && !Bit(umask, i) {
      LowBit(mode, 9, i);
      MaskedBit(before, umask, i);
    }
  }

  lemma NothingStored(mode: nat)
    ensures InStep(mode, None)
  {
  }

  lemma SmallMode(entries: seq<Entry>)
    requires Grammar(entries)
    ensures PermissionsMode(entries) < 512
  {
    PermsSmall(entries);
  }

  lemma LowBits(mode: nat, requested: nat)
    ensures var next := mode / 4096 * 4096 + requested % 4096;
            next % 4096 == requested % 4096 && next / 4096 == mode / 4096
  {
  }
}
