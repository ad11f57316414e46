/**
 * The dynamic linker's cache: the parser of both file formats, proved total on
 * every byte string, and an encoder for either origin of string offsets. The
 * parser inverts it for one origin in each format; for the other, which is what
 * glibc writes, there is an exact condition.
 */
module LdCache {
  import opened Words
  import opened Outputs

  type Entries = map<Bytes, Bytes>

  const MAGIC_NEW: Bytes :=  // "glibc-ld.so.cache1.1"
    [0x67, 0x6c, 0x69, 0x62, 0x63, 0x2d, 0x6c, 0x64, 0x2e, 0x73, 0x6f, 0x2e, 0x63, 0x61, 0x63, 0x68, 0x65,
     0x31, 0x2e, 0x31]
  const MAGIC_OLD: Bytes :=  // "ld.so-1.7.0"
    [0x6c, 0x64, 0x2e, 0x73, 0x6f, 0x2d, 0x31, 0x2e, 0x37, 0x2e, 0x30]

  // ---- Words and strings in the file ----

  function ReadU32(data: Bytes): u32
    requires |data| == 4
  {
    data[0] as int + data[1] as int * 0x100 + data[2] as int * 0x1_0000 + data[3] as int * 0x100_0000
  }

  function WriteU32(x: u32): (data: Bytes)
    ensures |data| == 4
  {
    [AsU8(x), AsU8(x / 0x100), AsU8(x / 0x1_0000), AsU8(x / 0x100_0000)]
  }

  lemma U32RoundTrip(x: u32)
    ensures ReadU32(WriteU32(x)) == x
  {
    var a := x / 0x100;
    var b := a / 0x100;
    assert x / 0x1_0000 == b && x / 0x100_0000 == b / 0x100;
  }

  /** The least significant byte comes first. */
  lemma LittleEndian(a: u8, b: u8, c: u8, d: u8)
    ensures ReadU32([a, b, c, d]) == a + 0x100 * b + 0x1_0000 * c + 0x100_0000 * d
  {
  }

  predicate Continuation(b: u8) { 0x80 <= b < 0xC0 }

  /** Length of the well-formed UTF-8 sequence at the front, 0 if there is none. */
  function ScalarLength(s: Bytes): nat
    requires s != []
  {
    var b := s[0];
    if b < 0x80 then 1
    else if |s| < 2 then 0
    else if 0xC2 <= b <= 0xDF then if Continuation(s[1]) then 2 else 0
    else if |s| < 3 then 0
    else if 0xE0 <= b <= 0xEF then
      if (if b == 0xE0 then 0xA0 <= s[1] < 0xC0 else if b == 0xED then 0x80 <= s[1] < 0xA0 else Continuation(s[1]))
         && Continuation(s[2]) then 3 else 0
    else if |s| < 4 then 0
    else if 0xF0 <= b <= 0xF4 then
      if (if b == 0xF0 then 0x90 <= s[1] < 0xC0 else if b == 0xF4 then 0x80 <= s[1] < 0x90 else Continuation(s[1]))
         && Continuation(s[2]) && Continuation(s[3]) then 4 else 0
    else 0
  }

  predicate ValidUtf8(s: Bytes)
    decreases |s|
  {
    s == [] || (var n := ScalarLength(s); 0 < n <= |s| && ValidUtf8(s[n..]))
  }

  // ---- UTF-8, as the encoding of Unicode scalar values ----

  type Scalar = c: nat | c < 0x11_0000 && !(0xD800 <= c < 0xE000)

  function Utf8(c: Scalar): Bytes {
    if c < 0x80 then [c]
    else if c < 0x800 then [0xC0 + c / 0x40, 0x80 + c % 0x40]
    else if c < 0x1_0000 then [0xE0 + c / 0x1000, 0x80 + c / 0x40 % 0x40, 0x80 + c % 0x40]
    else [0xF0 + c / 0x4_0000, 0x80 + c / 0x1000 % 0x40, 0x80 + c / 0x40 % 0x40, 0x80 + c % 0x40]
  }

  function Utf8All(text: seq<Scalar>): Bytes {
    if text == [] then [] else Utf8(text[0]) + Utf8All(text[1..])
  }

  /** `ValidUtf8` accepts exactly the encodings of texts. */
  lemma Utf8Exactly(s: Bytes)
    ensures ValidUtf8(s) <==> exists text :: Utf8All(text) == s
  {
    if ValidUtf8(s) {
      var text := Utf8Text(s);
    }
    forall text | Utf8All(text) == s ensures ValidUtf8(s) {
      Utf8Valid(text);
    }
  }

  lemma {:induction false} Utf8Valid(text: seq<Scalar>)
    ensures ValidUtf8(Utf8All(text))
    decreases |text|
  {
    if text != [] {
      var c, rest := text[0], Utf8All(text[1..]);
      Utf8Leads(c, rest);
      Utf8Valid(text[1..]);
      assert (Utf8(c) + rest)[|Utf8(c)|..] == rest;
    }
  }

  lemma Utf8Leads(c: Scalar, rest: Bytes)
    ensures |Utf8(c)| > 0 && ScalarLength(Utf8(c) + rest) == |Utf8(c)|
  {
    var s := Utf8(c) + rest;
    assert forall i :: 0 <= i < |Utf8(c)| ==> s[i] == Utf8(c)[i];
  }

  lemma {:induction false} Utf8Text(s: Bytes) returns (text: seq<Scalar>)
    requires ValidUtf8(s)
    ensures Utf8All(text) == s
    decreases |s|
  {
    if s == [] {
      text := [];
    } else {
      var n := ScalarLength(s);
      var c := FirstScalar(s);
      var rest := Utf8Text(s[n..]);
      text := [c] + rest;
      assert text[1..] == rest && s[..n] + s[n..] == s;
    }
  }

  lemma FirstScalar(s: Bytes) returns (c: Scalar)
    requires s != [] && 0 < ScalarLength(s) <= |s|
    ensures Utf8(c) == s[..ScalarLength(s)]
  {
    var n := ScalarLength(s);
    if n == 1 {
      c := s[0];
    } else if n == 2 {
      c := Digits(s[0] - 0xC0, s[1] - 0x80);
    } else if n == 3 {
      var high := Digits(s[0] - 0xE0, s[1] - 0x80);
      c := Digits(high, s[2] - 0x80);
      assert c / 0x1000 == high / 0x40;
    } else {
      var top := Digits(s[0] - 0xF0, s[1] - 0x80);
      var high := Digits(top, s[2] - 0x80);
      c := Digits(high, s[3] - 0x80);
      assert c / 0x1000 == high / 0x40 && c / 0x4_0000 == top / 0x40;
    }
  }

  lemma Digits(high: nat, low: nat) returns (x: nat)
    requires low < 0x40
    ensures x == 0x40 * high + low && x / 0x40 == high && x % 0x40 == low
  {
    x := 0x40 * high + low;
  }

  /** Distance to the first zero byte, or the length if there is none. */
  function ToNul(s: Bytes): (n: nat)
    ensures n <= |s| && 0 !in s[..n] && (n < |s| ==> s[n] == 0)
  {
    if s == [] || s[0] == 0 then 0
    else
      var n := 1 + ToNul(s[1..]);
      assert s[..n] == [s[0]] + s[1..][..n - 1];
      n
  }

  function ReadCString(data: Bytes, offset: nat): Option<Bytes> {
    if offset >= |data| then None
    else
      var start := data[offset..];
      var end := ToNul(start);
      if end < |start| && ValidUtf8(start[..end]) then Some(start[..end]) else None
  }

  // ---- The parser ----

  /** The two formats differ in header and entry size and in what this parser takes offsets to be relative to. */
  datatype Format = New | Old
  {
    function Size(): nat { if New? then 24 else 12 }

    /** Where entry `i` starts. */
    function At(i: nat): nat { if New? then 48 + 24 * i else 16 + 12 * i }

    function Strings(data: Bytes, n: nat): Bytes
      requires At(n) <= |data|
    {
      if New? then data[At(n)..] else data
    }
  }

  /** One table entry: its name and path offsets, resolved against the strings. */
  function EntryPair(entry: Bytes, strings: Bytes): Option<(Bytes, Bytes)>
    requires |entry| >= 12
  {
    var name := ReadCString(strings, ReadU32(entry[4..8]));
    var path := ReadCString(strings, ReadU32(entry[8..12]));
    if name.Some? && path.Some? then Some((name.value, path.value)) else None
  }

  /** The resolvable pairs of the first `n` entries, in file order. */
  function Pairs(f: Format, data: Bytes, n: nat, strings: Bytes): seq<(Bytes, Bytes)>
    requires f.At(n) <= |data|
  {
    if n == 0 then []
    else
      var p := EntryPair(data[f.At(n - 1)..f.At(n)], strings);
      Pairs(f, data, n - 1, strings) + if p.Some? then [p.value] else []
  }

  /** The format and number of entries of a file that passes the header checks. */
  function Header(data: Bytes): Option<(Format, nat)> {
    if |data| < 20 then None
    else if MAGIC_NEW <= data then
      if |data| < 48 then None
      else
        var n := ReadU32(data[20..24]);
        if |data| < New.At(n) + ReadU32(data[24..28]) then None else Some((New, n))
    else if MAGIC_OLD <= data then
      var n := ReadU32(data[12..16]);
      if |data| < Old.At(n) then None else Some((Old, n))
    else None
  }

  lemma HeaderFits(data: Bytes)
    ensures Header(data).Some? ==> Header(data).value.0.At(Header(data).value.1) <= |data|
  {
  }

  /** Everything a file lists, in order; nothing if its header is not accepted. */
  function Listing(data: Bytes): seq<(Bytes, Bytes)> {
    HeaderFits(data);
    match Header(data)
    case None => []
    case Some((f, n)) => Pairs(f, data, n, f.Strings(data, n))
  }

  /** `k` is bound to `v` by the last pair that names it. */
  ghost predicate LastBinding(pairs: seq<(Bytes, Bytes)>, k: Bytes, v: Bytes) {
    exists i :: 0 <= i < |pairs| && LastAt(pairs, k, v, i)
  }

  ghost predicate LastAt(pairs: seq<(Bytes, Bytes)>, k: Bytes, v: Bytes, i: nat)
    requires i < |pairs|
  {
    pairs[i] == (k, v) && forall j :: i < j < |pairs| ==> pairs[j].0 != k
  }

  /** The map of a list of pairs: later duplicates win. */
  ghost predicate Means(m: Entries, pairs: seq<(Bytes, Bytes)>) {
    && (forall i :: 0 <= i < |pairs| ==> pairs[i].0 in m)
    && (forall k :: k in m ==> LastBinding(pairs, k, m[k]))
  }

  lemma MeansAppend(m: Entries, pairs: seq<(Bytes, Bytes)>, k: Bytes, v: Bytes)
    requires Means(m, pairs)
    ensures Means(m[k := v], pairs + [(k, v)])
  {
    var q := pairs + [(k, v)];
    var m' := m[k := v];
    forall x | x in m' ensures LastBinding(q, x, m'[x]) {
      if x == k {
        assert LastAt(q, k, v, |pairs|);
      } else {
        var i :| 0 <= i < |pairs| && LastAt(pairs, x, m[x], i);
        assert LastAt(q, x, m[x], i);
      }
    }
    forall i | 0 <= i < |q| ensures q[i].0 in m' {
      if i < |pairs| { assert q[i] == pairs[i]; }
    }
  }

  /** A list of pairs has one map. */
  lemma MeansUnique(a: Entries, b: Entries, pairs: seq<(Bytes, Bytes)>)
    requires Means(a, pairs) && Means(b, pairs)
    ensures a == b
  {
    forall k | k in a ensures k in b && a[k] == b[k] { OneBinding(a, b, pairs, k); }
    forall k | k in b ensures k in a && a[k] == b[k] { OneBinding(b, a, pairs, k); }
  }

  lemma OneBinding(a: Entries, b: Entries, pairs: seq<(Bytes, Bytes)>, k: Bytes)
    requires Means(a, pairs) && Means(b, pairs) && k in a
    ensures k in b && a[k] == b[k]
  {
    var i :| 0 <= i < |pairs| && LastAt(pairs, k, a[k], i);
    assert pairs[i].0 in b;
    var j :| 0 <= j < |pairs| && LastAt(pairs, k, b[k], j);
    assert i == j by {
      assert pairs[i].0 == pairs[j].0 == k;
    }
  }

  /** `s` stands somewhere in the data, followed by its terminating zero. */
  ghost predicate IsRun(data: Bytes, s: Bytes) {
    0 !in s && exists at: nat :: RunAt(data, s, at)
  }

  ghost predicate RunAt(data: Bytes, s: Bytes, at: nat) {
    at + |s| < |data| && data[at..at + |s|] == s && data[at + |s|] == 0
  }

  /** Every name and path is a terminated run of the data. */
  ghost predicate AllRuns(data: Bytes, entries: Entries) {
    forall k :: k in entries ==> IsRun(data, k) && IsRun(data, entries[k])
  }

  lemma CStringIsRun(data: Bytes, from: nat, offset: nat)
    requires from <= |data| && ReadCString(data[from..], offset).Some?
    ensures IsRun(data, ReadCString(data[from..], offset).value)
  {
    var s := ReadCString(data[from..], offset).value;
    var at := from + offset;
    assert data[from..][offset..] == data[at..];
    assert data[at..at + |s|] == data[at..][..|s|] == s;
    assert data[at + |s|] == data[at..][|s|];
    assert RunAt(data, s, at);
  }

  /** The entry loop shared by both formats; offsets are 64-bit words and do not overflow. */
  method ParseEntries(f: Format, data: Bytes, n: u32) returns (entries: Entries)
    requires f.At(n) <= |data|
    ensures Means(entries, Pairs(f, data, n, f.Strings(data, n)))
    ensures AllRuns(data, entries)
  {
    hide Means;
    hide AllRuns;
    hide ReadCString;
    hide ReadU32;
    hide Pairs;
    var strings := f.Strings(data, n);
    ghost var from := if f.New? then f.At(n) else 0;
    assert strings == data[from..];
    entries := map[];
    NothingYet(f, data, strings);
    for i: int := 0 to n
      invariant Means(entries, Pairs(f, data, i, strings))
      invariant AllRuns(data, entries)
    {
      var entryOffset: u64 := f.At(i);
      var entry := data[entryOffset..entryOffset + f.Size()];
      var keyOffset := ReadU32(entry[4..8]);
      var valueOffset := ReadU32(entry[8..12]);
      var name := ReadCString(strings, keyOffset);
      var path := ReadCString(strings, valueOffset);
      PairsStep(f, data, i, strings);
      if name.Some? && path.Some? {
        MeansAppend(entries, Pairs(f, data, i, strings), name.value, path.value);
        RunsAppend(data, from, keyOffset, valueOffset, entries);
        entries := entries[name.value := path.value];
      }
    }
  }

  lemma NothingYet(f: Format, data: Bytes, strings: Bytes)
    requires f.At(0) <= |data|
    ensures Means(map[], Pairs(f, data, 0, strings)) && AllRuns(data, map[])
  {
  }

  lemma AtStep(f: Format, i: nat)
    ensures f.At(i + 1) == f.At(i) + f.Size()
  {
  }

  lemma PairsStep(f: Format, data: Bytes, i: nat, strings: Bytes)
    requires f.At(i + 1) <= |data|
    ensures f.At(i + 1) == f.At(i) + f.Size()
    ensures var p := EntryPair(data[f.At(i)..f.At(i) + f.Size()], strings);
      Pairs(f, data, i + 1, strings) ==
        if p.Some? then Pairs(f, data, i, strings) + [p.value] else Pairs(f, data, i, strings)
  {
    AtStep(f, i);
    hide EntryPair;
    var p := EntryPair(data[f.At(i)..f.At(i + 1)], strings);
    assert Pairs(f, data, i + 1, strings) == Pairs(f, data, i, strings) + if p.Some? then [p.value] else [];
    assert Pairs(f, data, i, strings) + [] == Pairs(f, data, i, strings);
  }

  lemma RunsAppend(data: Bytes, from: nat, keyOffset: nat, valueOffset: nat, entries: Entries)
    requires from <= |data| && AllRuns(data, entries)
    requires ReadCString(data[from..], keyOffset).Some? && ReadCString(data[from..], valueOffset).Some?
    ensures AllRuns(data,
      entries[ReadCString(data[from..], keyOffset).value := ReadCString(data[from..], valueOffset).value])
  {
    CStringIsRun(data, from, keyOffset);
    CStringIsRun(data, from, valueOffset);
  }

  method ParseNewFormat(data: Bytes) returns (entries: Entries)
    requires |data| >= 20 && MAGIC_NEW <= data
    ensures Means(entries, Listing(data))
    ensures AllRuns(data, entries)
  {
    if |data| < 48 { return map[]; }
    var nlibs := ReadU32(data[20..24]);
    var lenStrings := ReadU32(data[24..28]);
    var entriesEnd: u64 := 48 + nlibs as int * 24;
    var end: u64 := entriesEnd as int + lenStrings as int;
    if |data| < end { return map[]; }
    entries := ParseEntries(New, data, nlibs);
  }

  method ParseOldFormat(data: Bytes) returns (entries: Entries)
    requires |data| >= 20 && MAGIC_OLD <= data && !(MAGIC_NEW <= data)
    ensures Means(entries, Listing(data))
    ensures AllRuns(data, entries)
  {
    var nlibs := ReadU32(data[12..16]);
    var entriesEnd: u64 := 16 + nlibs as int * 12;
    if |data| < entriesEnd { return map[]; }
    entries := ParseEntries(Old, data, nlibs);
  }

  /** Any byte string at all: every index stays in range and every entry is a terminated run of the input. */
  method Parse(data: Bytes) returns (entries: Entries)
    ensures Means(entries, Listing(data))
    ensures AllRuns(data, entries)
  {
    if |data| < 20 { return map[]; }
    if MAGIC_NEW <= data {
      entries := ParseNewFormat(data);
      return;
    }
    if MAGIC_OLD <= data {
      entries := ParseOldFormat(data);
      return;
    }
    return map[];
  }

  // ---- The encoder ----

  /** One library: its two strings, and the bytes of its entry that the parser skips. */
  datatype Lib = Lib(flags: Bytes, name: Bytes, path: Bytes, rest: Bytes)

  /** What the string offsets of a file count from: its own start, or that of its strings. */
  datatype Origin = FromFile | FromStrings

  /** The origin this parser assumes. */
  function ParserOrigin(f: Format): Origin { if f.New? then FromStrings else FromFile }

  /** The origin glibc writes and its dynamic linker reads (elf/cache.c, elf/dl-cache.c): the other one. */
  function GlibcOrigin(f: Format): Origin { if f.New? then FromFile else FromStrings }

  /** A file: its libraries, the header bytes the parser skips, and anything after the strings. */
  datatype File = File(format: Format, origin: Origin, libs: seq<Lib>, filler: Bytes, trailer: Bytes)

  predicate CleanString(s: Bytes) {
    0 !in s && ValidUtf8(s)
  }

  function LibStrings(l: Lib): Bytes {
    l.name + [0] + l.path + [0]
  }

  function Table(libs: seq<Lib>): Bytes {
    if libs == [] then [] else Table(libs[..|libs| - 1]) + LibStrings(libs[|libs| - 1])
  }

  ghost predicate Encodable(f: File) {
    && (forall l :: l in f.libs ==>
          CleanString(l.name) && CleanString(l.path) && |l.flags| == 4 && |l.rest| == f.format.Size() - 12)
    && |f.filler| == (if f.format.New? then 20 else 1)
    && |f.libs| < 0x1_0000_0000 && Base(f) + |Table(f.libs)| < 0x1_0000_0000
  }

  /** The offset that names the start of the strings. */
  function Base(f: File): nat {
    if f.origin.FromStrings? then 0 else f.format.At(|f.libs|)
  }

  function EncodeEntry(l: Lib, offset: nat): Bytes {
    l.flags + WriteU32(AsU32(offset)) + WriteU32(AsU32(offset + |l.name| + 1)) + l.rest
  }

  function EncodeEntries(libs: seq<Lib>, base: nat): Bytes {
    if libs == [] then []
    else
      var before := libs[..|libs| - 1];
      EncodeEntries(before, base) + EncodeEntry(libs[|libs| - 1], base + |Table(before)|)
  }

  function EncodeHeader(f: File): Bytes {
    if f.format.New? then
      MAGIC_NEW + WriteU32(AsU32(|f.libs|)) + WriteU32(AsU32(|Table(f.libs)|)) + f.filler
    else
      MAGIC_OLD + f.filler + WriteU32(AsU32(|f.libs|))
  }

  function Encode(f: File): Bytes {
    EncodeHeader(f) + EncodeEntries(f.libs, Base(f)) + Table(f.libs) + f.trailer
  }

  // ---- The round trip ----

  lemma {:induction false} ToNulIs(s: Bytes, n: nat)
    requires n < |s| && 0 !in s[..n] && s[n] == 0
    ensures ToNul(s) == n
  {
    if n > 0 {
      assert s[0] == s[..n][0];
      assert s[1..][..n - 1] == s[..n][1..];
      ToNulIs(s[1..], n - 1);
    }
  }

  /** An offset reads back exactly the clean string that stands there, terminated. */
  lemma ReadsExactly(data: Bytes, at: nat, s: Bytes)
    ensures ReadCString(data, at) == Some(s) <==> RunAt(data, s, at) && CleanString(s)
  {
    if RunAt(data, s, at) && CleanString(s) {
      CStringAt(data, at, s);
    }
  }

  lemma CStringAt(data: Bytes, at: nat, s: Bytes)
    requires RunAt(data, s, at) && CleanString(s)
    ensures ReadCString(data, at) == Some(s)
  {
    assert data[at..][..|s|] == data[at..at + |s|];
    ToNulIs(data[at..], |s|);
  }

  lemma {:induction false} TablePrefix(libs: seq<Lib>, i: nat)
    requires i <= |libs|
    ensures Table(libs[..i]) <= Table(libs)
  {
    if i < |libs| {
      var before := libs[..|libs| - 1];
      assert before[..i] == libs[..i];
      TablePrefix(before, i);
    } else {
      assert libs[..i] == libs;
    }
  }

  lemma RunInConcat(pre: Bytes, s: Bytes, post: Bytes)
    ensures RunAt(pre + s + [0] + post, s, |pre|)
  {
  }

  /** Both strings of library `i` stand in the table at the offsets its entry gives. */
  lemma StringsInTable(pre: Bytes, libs: seq<Lib>, i: nat, post: Bytes)
    requires i < |libs|
    ensures var at := |pre| + |Table(libs[..i])|;
      && RunAt(pre + Table(libs) + post, libs[i].name, at)
      && RunAt(pre + Table(libs) + post, libs[i].path, at + |libs[i].name| + 1)
  {
    var l, upTo, table := libs[i], Table(libs[..i]), Table(libs);
    TablePrefix(libs, i + 1);
    TableStep(libs, i);
    LibRuns(pre + upTo, l, table[|Table(libs[..i + 1])|..] + post);
    Regroup(pre, upTo, LibStrings(l), table, post);
  }

  lemma TableStep(libs: seq<Lib>, i: nat)
    requires i < |libs|
    ensures Table(libs[..i + 1]) == Table(libs[..i]) + LibStrings(libs[i])
  {
    assert libs[..i + 1][..i] == libs[..i];
  }

  lemma LibRuns(before: Bytes, l: Lib, after: Bytes)
    ensures RunAt(before + LibStrings(l) + after, l.name, |before|)
    ensures RunAt(before + LibStrings(l) + after, l.path, |before| + |l.name| + 1)
  {
    RunInConcat(before, l.name, l.path + [0] + after);
    assert before + l.name + [0] + (l.path + [0] + after) == before + LibStrings(l) + after;
    RunInConcat(before + l.name + [0], l.path, after);
    assert (before + l.name + [0]) + l.path + [0] + after == before + LibStrings(l) + after;
  }

  lemma Regroup(pre: Bytes, upTo: Bytes, mid: Bytes, table: Bytes, post: Bytes)
    requires upTo + mid <= table
    ensures pre + table + post == (pre + upTo) + mid + (table[|upTo + mid|..] + post)
  {
    assert table == (upTo + mid) + table[|upTo + mid|..];
  }

  function PairOf(l: Lib): (Bytes, Bytes) { (l.name, l.path) }

  function PairsOf(libs: seq<Lib>): seq<(Bytes, Bytes)> {
    seq(|libs|, i requires 0 <= i < |libs| => PairOf(libs[i]))
  }

  lemma {:induction false} EntriesLength(f: Format, libs: seq<Lib>, base: nat)
    requires forall l :: l in libs ==> |l.flags| == 4 && |l.rest| == f.Size() - 12
    ensures |EncodeEntries(libs, base)| == f.At(|libs|) - f.At(0)
  {
    if libs != [] {
      var before := libs[..|libs| - 1];
      assert libs[|libs| - 1] in libs && forall l :: l in before ==> l in libs;
      EntriesLength(f, before, base);
    }
  }

  lemma {:induction false} EntriesPrefix(libs: seq<Lib>, base: nat, i: nat)
    requires i <= |libs|
    ensures EncodeEntries(libs[..i], base) <= EncodeEntries(libs, base)
  {
    if i < |libs| {
      var before := libs[..|libs| - 1];
      assert before[..i] == libs[..i];
      EntriesPrefix(before, base, i);
    } else {
      assert libs[..i] == libs;
    }
  }

  /** Entry `i` stands at its place in the entry table. */
  lemma EntryInTable(f: Format, libs: seq<Lib>, base: nat, i: nat)
    requires i < |libs| && forall l :: l in libs ==> |l.flags| == 4 && |l.rest| == f.Size() - 12
    ensures f.At(i + 1) - f.At(0) <= |EncodeEntries(libs, base)|
    ensures EncodeEntries(libs, base)[f.At(i) - f.At(0)..f.At(i + 1) - f.At(0)]
      == EncodeEntry(libs[i], base + |Table(libs[..i])|)
  {
    hide EncodeEntry;
    hide Table;
    EntriesPrefix(libs, base, i + 1);
    EntriesLength(f, libs[..i], base);
    EntriesLength(f, libs[..i + 1], base);
    assert libs[..i + 1][..i] == libs[..i];
    var upTo, entry := EncodeEntries(libs[..i], base), EncodeEntry(libs[i], base + |Table(libs[..i])|);
    var all := EncodeEntries(libs, base);
    assert all[..|upTo + entry|] == upTo + entry;
    assert all[|upTo|..|upTo + entry|] == all[..|upTo + entry|][|upTo|..];
    assert (upTo + entry)[|upTo|..] == entry;
  }

  lemma Assoc(a: Bytes, b: Bytes, c: Bytes, d: Bytes)
    ensures a + b + c + d == a + (b + c + d) == a + b + (c + d)
  {
  }

  lemma Fields(a: Bytes, b: Bytes, c: Bytes, d: Bytes)
    ensures (a + b + c + d)[..|a|] == a
    ensures (a + b + c + d)[|a|..|a| + |b|] == b
    ensures (a + b + c + d)[|a| + |b|..|a| + |b| + |c|] == c
  {
  }

  /** The parts of the header survive the bytes that follow it. */
  lemma NewHeaderFields(f: File, data: Bytes)
    requires Encodable(f) && f.format.New? && EncodeHeader(f) <= data
    ensures |EncodeHeader(f)| == 48 && MAGIC_NEW <= data
    ensures data[20..24] == WriteU32(|f.libs|) && data[24..28] == WriteU32(|Table(f.libs)|)
  {
    hide WriteU32;
    hide Table;
    var n, strings := WriteU32(|f.libs|), WriteU32(|Table(f.libs)|);
    var head := EncodeHeader(f);
    assert head == MAGIC_NEW + n + strings + f.filler;
    Fields(MAGIC_NEW, n, strings, f.filler);
    assert data[..20] == head[..20] && data[20..24] == head[20..24] && data[24..28] == head[24..28];
  }

  lemma OldHeaderFields(f: File, data: Bytes)
    requires Encodable(f) && f.format.Old? && EncodeHeader(f) <= data
    ensures |EncodeHeader(f)| == 16 && MAGIC_OLD <= data && data[0] == MAGIC_OLD[0]
    ensures data[12..16] == WriteU32(|f.libs|)
  {
    hide WriteU32;
    hide Table;
    var n := WriteU32(|f.libs|);
    var head := EncodeHeader(f);
    assert head == MAGIC_OLD + f.filler + n;
    Fields(MAGIC_OLD, f.filler, n, []);
    assert head + [] == head;
    assert data[..11] == head[..11] && data[12..16] == head[12..16];
  }

  /** The header is accepted and says what was encoded. */
  lemma HeaderRoundTrip(f: File)
    requires Encodable(f) && |Encode(f)| >= 20
    ensures Header(Encode(f)) == Some((f.format, |f.libs|))
  {
    hide EncodeHeader;
    hide EncodeEntries;
    hide Table;
    hide WriteU32;
    hide ReadU32;
    var data := Encode(f);
    var entries := EncodeEntries(f.libs, Base(f));
    EntriesLength(f.format, f.libs, Base(f));
    Assoc(EncodeHeader(f), entries, Table(f.libs), f.trailer);
    U32RoundTrip(|f.libs|);
    if f.format.New? {
      NewHeaderFields(f, data);
      U32RoundTrip(|Table(f.libs)|);
    } else {
      OldHeaderFields(f, data);
      assert MAGIC_OLD[0] != MAGIC_NEW[0];
    }
  }

  lemma HeaderLength(f: File)
    requires Encodable(f)
    ensures |EncodeHeader(f)| == f.format.At(0)
  {
  }

  /** Where the entries and the strings of an encoded file stand. */
  lemma EncodedParts(f: File)
    requires Encodable(f)
    ensures f.format.At(|f.libs|) <= |Encode(f)|
    ensures Encode(f)[f.format.At(|f.libs|)..] == Table(f.libs) + f.trailer
  {
    hide EncodeHeader, EncodeEntries, Table;
    HeaderLength(f);
    EntriesLength(f.format, f.libs, Base(f));
    Assoc(EncodeHeader(f), EncodeEntries(f.libs, Base(f)), Table(f.libs), f.trailer);
  }

  lemma EncodedEntry(f: File, i: nat)
    requires Encodable(f) && i < |f.libs|
    ensures f.format.At(i + 1) <= |Encode(f)|
    ensures Encode(f)[f.format.At(i)..f.format.At(i + 1)]
         == EncodeEntry(f.libs[i], Base(f) + |Table(f.libs[..i])|)
  {
    hide EncodeHeader, EncodeEntries, EncodeEntry, Table;
    var fmt, head, entries := f.format, EncodeHeader(f), EncodeEntries(f.libs, Base(f));
    HeaderLength(f);
    EntriesLength(fmt, f.libs, Base(f));
    EntryInTable(fmt, f.libs, Base(f), i);
    Assoc(head, entries, Table(f.libs), f.trailer);
    EncodedEntryStands(head, entries, Table(f.libs) + f.trailer, fmt.At(i) - fmt.At(0), fmt.At(i + 1) - fmt.At(0));
  }

  lemma EncodedEntryStands(head: Bytes, entries: Bytes, post: Bytes, a: nat, b: nat)
    requires a <= b <= |entries|
    ensures (head + entries + post)[|head| + a..|head| + b] == entries[a..b]
  {
  }

  lemma OffsetsFit(f: File, i: nat)
    requires Encodable(f) && i < |f.libs|
    ensures Base(f) + |Table(f.libs[..i])| + |f.libs[i].name| + 1 < 0x1_0000_0000
    ensures CleanString(f.libs[i].name) && CleanString(f.libs[i].path) && |f.libs[i].flags| == 4
  {
    hide Table;
    assert f.libs[i] in f.libs;
    TablePrefix(f.libs, i + 1);
    TableStep(f.libs, i);
  }

  /** The two offsets of an encoded entry are read back, if they fit 32 bits. */
  lemma EntryOffsets(l: Lib, offset: nat)
    requires |l.flags| == 4 && offset + |l.name| + 1 < 0x1_0000_0000
    ensures |EncodeEntry(l, offset)| >= 12
    ensures ReadU32(EncodeEntry(l, offset)[4..8]) == offset
    ensures ReadU32(EncodeEntry(l, offset)[8..12]) == offset + |l.name| + 1
  {
    hide ReadU32;
    hide WriteU32;
    var name, path := WriteU32(offset), WriteU32(offset + |l.name| + 1);
    U32RoundTrip(offset);
    U32RoundTrip(offset + |l.name| + 1);
    Fields(l.flags, name, path, l.rest);
  }

  // ---- Files of any layout ----

  /** The two offsets of an entry point to the clean strings of a pair, wherever these stand. */
  ghost predicate PointsTo(entry: Bytes, strings: Bytes, pair: (Bytes, Bytes)) {
    && |entry| >= 12
    && RunAt(strings, pair.0, ReadU32(entry[4..8])) && CleanString(pair.0)
    && RunAt(strings, pair.1, ReadU32(entry[8..12])) && CleanString(pair.1)
  }

  /** A file whose entries point to the given pairs: strings may be shared, overlap, or stand in any order. */
  ghost predicate LaidOut(data: Bytes, pairs: seq<(Bytes, Bytes)>) {
    HeaderFits(data);
    Header(data).Some? &&
    (var (f, n) := Header(data).value;
     n == |pairs| && forall i :: 0 <= i < n ==> EntryPoints(f, data, i, f.Strings(data, n), pairs[i]))
  }

  ghost predicate EntryPoints(f: Format, data: Bytes, i: nat, strings: Bytes, pair: (Bytes, Bytes)) {
    f.At(i + 1) <= |data| && PointsTo(data[f.At(i)..f.At(i + 1)], strings, pair)
  }

  lemma EntryPairExactly(entry: Bytes, strings: Bytes, pair: (Bytes, Bytes))
    requires |entry| >= 12
    ensures EntryPair(entry, strings) == Some(pair) <==> PointsTo(entry, strings, pair)
  {
    hide ReadCString, ReadU32, RunAt, CleanString;
    ReadsExactly(strings, ReadU32(entry[4..8]), pair.0);
    ReadsExactly(strings, ReadU32(entry[8..12]), pair.1);
  }

  lemma {:induction false} PairsExactly(f: Format, data: Bytes, n: nat, strings: Bytes, pairs: seq<(Bytes, Bytes)>)
    requires f.At(n) <= |data| && |pairs| == n
    ensures |Pairs(f, data, n, strings)| <= n
    ensures Pairs(f, data, n, strings) == pairs
      <==> forall i :: 0 <= i < n ==> EntryPoints(f, data, i, strings, pairs[i])
  {
    hide PointsTo, EntryPair;
    if n > 0 {
      var before, last := pairs[..n - 1], pairs[n - 1];
      PairsExactly(f, data, n - 1, strings, before);
      EntryPairExactly(data[f.At(n - 1)..f.At(n)], strings, last);
      assert pairs == before + [last];
      assert EntryPoints(f, data, n - 1, strings, last)
        <==> EntryPair(data[f.At(n - 1)..f.At(n)], strings) == Some(last);
      if Pairs(f, data, n, strings) == pairs {
        assert Pairs(f, data, n - 1, strings) == before;
        forall i | 0 <= i < n ensures EntryPoints(f, data, i, strings, pairs[i]) {
          if i < n - 1 { assert EntryPoints(f, data, i, strings, before[i]); }
        }
      }
    }
  }

  /** Whatever the layout, a file lists one pair for each entry exactly when its entries point to these. */
  lemma LayoutExactly(data: Bytes, pairs: seq<(Bytes, Bytes)>)
    requires Header(data).Some? && Header(data).value.1 == |pairs|
    ensures Listing(data) == pairs <==> LaidOut(data, pairs)
  {
    hide EntryPoints, Pairs;
    HeaderFits(data);
    var (f, n) := Header(data).value;
    PairsExactly(f, data, n, f.Strings(data, n), pairs);
  }

  /** So parsing such a file yields the map of its pairs, later duplicates winning. */
  method ParseLaidOut(data: Bytes, ghost pairs: seq<(Bytes, Bytes)>) returns (entries: Entries)
    requires LaidOut(data, pairs)
    ensures Means(entries, pairs)
    ensures forall m: Entries :: Means(m, pairs) ==> m == entries
  {
    LayoutExactly(data, pairs);
    entries := Parse(data);
    forall m: Entries | Means(m, pairs) ensures m == entries {
      MeansUnique(m, entries, pairs);
    }
  }

  // ---- What is listed of any file ----

  function Ascii(s: string): Bytes {
    seq(|s|, i requires 0 <= i < |s| => AsU8(s[i] as int))
  }

  /** The two magics, as text. */
  lemma Magics()
    ensures MAGIC_NEW == Ascii("glibc-ld.so.cache1.1") && MAGIC_OLD == Ascii("ld.so-1.7.0")
  {
  }

  /**
   * A file is accepted exactly if it has 20 bytes, one of the two magics, and room for
   * its header, for the entries it counts and, in the new format, for the strings it
   * announces.
   */
  lemma HeaderExactly(data: Bytes)
    ensures Header(data).Some? && Header(data).value.0.New? <==>
      |data| >= 48 && MAGIC_NEW <= data && 48 + 24 * ReadU32(data[20..24]) + ReadU32(data[24..28]) <= |data|
    ensures Header(data).Some? && Header(data).value.0.Old? <==>
      |data| >= 20 && MAGIC_OLD <= data && !(MAGIC_NEW <= data) && 16 + 12 * ReadU32(data[12..16]) <= |data|
    ensures Header(data).Some? ==>
      Header(data).value.1 == if MAGIC_NEW <= data then ReadU32(data[20..24]) else ReadU32(data[12..16])
    ensures Header(data).None? ==> Listing(data) == []
  {
    hide ReadU32;
  }

  /** The entry that starts at `at` points to the clean strings of a pair; its offsets count from `base`. */
  ghost predicate EntryNames(data: Bytes, at: nat, base: nat, pair: (Bytes, Bytes)) {
    && at + 12 <= |data|
    && RunAt(data, pair.0, base + ReadU32(data[at + 4..at + 8])) && CleanString(pair.0)
    && RunAt(data, pair.1, base + ReadU32(data[at + 8..at + 12])) && CleanString(pair.1)
  }

  ghost predicate NewEntryNames(data: Bytes, i: nat, n: nat, pair: (Bytes, Bytes)) {
    EntryNames(data, 48 + 24 * i, 48 + 24 * n, pair)
  }

  ghost predicate OldEntryNames(data: Bytes, i: nat, pair: (Bytes, Bytes)) {
    EntryNames(data, 16 + 12 * i, 0, pair)
  }

  /**
   * Whatever the file: a pair is listed exactly if some entry points to it. The entries
   * of the new format take 24 bytes from 48 on and their offsets count from the end of
   * the entries; those of the old one take 12 bytes from 16 on and their offsets count
   * from the start of the file. An entry whose strings do not resolve is left out, and
   * those behind it are not.
   */
  lemma ListedExactly(data: Bytes, pair: (Bytes, Bytes))
    requires Header(data).Some?
    ensures
      var (f, n) := Header(data).value;
      pair in Listing(data) <==>
        if f.New? then exists i :: 0 <= i < n && NewEntryNames(data, i, n, pair)
        else exists i :: 0 <= i < n && OldEntryNames(data, i, pair)
  {
    hide Pairs, EntryNames;
    HeaderFits(data);
    var (f, n) := Header(data).value;
    PairsListed(f, data, n, f.Strings(data, n), pair);
    forall i | 0 <= i < n ensures Resolves(f, data, i, f.Strings(data, n), pair) <==> Lists(f, data, n, i, pair) {
      EntryNamesExactly(f, data, n, i, pair);
    }
    hide Resolves, NewEntryNames, OldEntryNames;
    if pair in Listing(data) {
      var i :| 0 <= i < n && Resolves(f, data, i, f.Strings(data, n), pair);
      assert Lists(f, data, n, i, pair);
    } else {
      forall i | 0 <= i < n ensures if f.New? then !NewEntryNames(data, i, n, pair) else !OldEntryNames(data, i, pair) {
        assert !Lists(f, data, n, i, pair);
      }
    }
  }

  ghost predicate Lists(f: Format, data: Bytes, n: nat, i: nat, pair: (Bytes, Bytes)) {
    if f.New? then NewEntryNames(data, i, n, pair) else OldEntryNames(data, i, pair)
  }

  lemma {:induction false} PairsListed(f: Format, data: Bytes, n: nat, strings: Bytes, pair: (Bytes, Bytes))
    requires f.At(n) <= |data|
    ensures pair in Pairs(f, data, n, strings) <==>
      exists i :: 0 <= i < n && Resolves(f, data, i, strings, pair)
  {
    hide EntryPair;
    if n > 0 {
      PairsListed(f, data, n - 1, strings, pair);
      assert Resolves(f, data, n - 1, strings, pair) <==>
        EntryPair(data[f.At(n - 1)..f.At(n)], strings) == Some(pair);
    }
  }

  ghost predicate Resolves(f: Format, data: Bytes, i: nat, strings: Bytes, pair: (Bytes, Bytes)) {
    f.At(i + 1) <= |data| && EntryPair(data[f.At(i)..f.At(i + 1)], strings) == Some(pair)
  }

  lemma EntryNamesExactly(f: Format, data: Bytes, n: nat, i: nat, pair: (Bytes, Bytes))
    requires f.At(n) <= |data| && i < n
    ensures Resolves(f, data, i, f.Strings(data, n), pair) <==> Lists(f, data, n, i, pair)
  {
    hide ReadU32, RunAt, CleanString, EntryPair;
    var at := f.At(i);
    var entry := data[at..f.At(i + 1)];
    AtStep(f, i);
    AtGrows(f, i + 1, n);
    SliceOfSlice(data, at, f.At(i + 1), 4, 8);
    SliceOfSlice(data, at, f.At(i + 1), 8, 12);
    EntryPairExactly(entry, f.Strings(data, n), pair);
    if f.New? {
      RunShifted(data, f.At(n), pair.0, ReadU32(entry[4..8]));
      RunShifted(data, f.At(n), pair.1, ReadU32(entry[8..12]));
    }
  }

  lemma SliceOfSlice(data: Bytes, from: nat, to: nat, a: nat, b: nat)
    requires a <= b && from + b <= to <= |data|
    ensures data[from..to][a..b] == data[from + a..from + b]
  {
    var part, same := data[from..to][a..b], data[from + a..from + b];
    assert forall i :: 0 <= i < b - a ==> part[i] == data[from..to][a + i] == data[from + a + i] == same[i];
  }

  lemma AtGrows(f: Format, i: nat, n: nat)
    requires i <= n
    ensures f.At(i) <= f.At(n)
  {
  }

  /** The map of a list binds exactly the names listed, and the last pair of a name decides. */
  lemma LaterWins(m: Entries, pairs: seq<(Bytes, Bytes)>, k: Bytes, v: Bytes)
    requires Means(m, pairs + [(k, v)])
    ensures k in m && m[k] == v
    ensures forall x :: x in m <==> x == k || exists i :: 0 <= i < |pairs| && pairs[i].0 == x
  {
    var all := pairs + [(k, v)];
    assert all[|pairs|] == (k, v);
    forall x | x in m ensures x == k || exists i :: 0 <= i < |pairs| && pairs[i].0 == x {
      var i :| 0 <= i < |all| && LastAt(all, x, m[x], i);
      if i < |pairs| { assert pairs[i].0 == x; }
    }
    forall i | 0 <= i < |pairs| ensures pairs[i].0 in m {
      assert all[i].0 in m;
    }
  }

  // ---- Encoded files ----

  lemma RunShifted(data: Bytes, k: nat, s: Bytes, at: nat)
    requires k <= |data|
    ensures RunAt(data[k..], s, at) <==> RunAt(data, s, k + at)
  {
    if k + at + |s| < |data| {
      assert data[k..][at..at + |s|] == data[k + at..k + at + |s|];
    }
  }

  /** Where in the file the parser looks for the name of library `i`; its path is looked for right behind. */
  function LooksAt(f: File, i: nat): nat
    requires i < |f.libs|
  {
    (if f.format.New? then f.format.At(|f.libs|) else 0) + Base(f) + |Table(f.libs[..i])|
  }

  /** Both strings of library `i` stand, terminated, where the parser looks for them. */
  ghost predicate StandsThere(f: File, i: nat)
    requires i < |f.libs|
  {
    && RunAt(Encode(f), f.libs[i].name, LooksAt(f, i))
    && RunAt(Encode(f), f.libs[i].path, LooksAt(f, i) + |f.libs[i].name| + 1)
  }

  /** Entry `i` of an encoded file points to library `i` exactly when its strings stand there. */
  lemma EntryExactly(f: File, i: nat)
    requires Encodable(f) && i < |f.libs| && f.format.At(|f.libs|) <= |Encode(f)|
    ensures EntryPoints(f.format, Encode(f), i, f.format.Strings(Encode(f), |f.libs|), PairOf(f.libs[i]))
      <==> StandsThere(f, i)
  {
    hide Encode, EncodeEntry, ReadU32, Table, Encodable, RunAt, CleanString, Base;
    var l, offset, start := f.libs[i], Base(f) + |Table(f.libs[..i])|, f.format.At(|f.libs|);
    EncodedEntry(f, i);
    OffsetsFit(f, i);
    EntryOffsets(l, offset);
    RunShifted(Encode(f), start, l.name, offset);
    RunShifted(Encode(f), start, l.path, offset + |l.name| + 1);
  }

  /**
   * Whatever its offsets count from, an encoded file lists its libraries exactly when all their strings stand
   * there.
   */
  lemma EncodedExactly(f: File)
    requires Encodable(f)
    ensures Listing(Encode(f)) == PairsOf(f.libs) <==> forall i :: 0 <= i < |f.libs| ==> StandsThere(f, i)
  {
    hide Encode, EntryPoints, StandsThere, Listing, Encodable;
    EncodedParts(f);
    if |Encode(f)| < 20 {
      TooShort(f);
    } else {
      HeaderRoundTrip(f);
      LayoutExactly(Encode(f), PairsOf(f.libs));
      forall i | 0 <= i < |f.libs|
        ensures EntryPoints(f.format, Encode(f), i, f.format.Strings(Encode(f), |f.libs|), PairsOf(f.libs)[i])
          <==> StandsThere(f, i)
      {
        EntryExactly(f, i);
      }
    }
  }

  lemma TooShort(f: File)
    requires Encodable(f) && |Encode(f)| < 20
    ensures f.libs == [] && Listing(Encode(f)) == []
  {
    hide Encode;
    EncodedParts(f);
  }

  /** With the parser's own origin they do. */
  lemma StandsAsAssumed(f: File, i: nat)
    requires Encodable(f) && i < |f.libs| && f.origin == ParserOrigin(f.format)
    ensures StandsThere(f, i)
  {
    hide Encode, Table, RunAt, Encodable;
    EncodedParts(f);
    var data, start := Encode(f), f.format.At(|f.libs|);
    StringsInTable(data[..start], f.libs, i, f.trailer);
    assert data[..start] + Table(f.libs) + f.trailer == data by {
      assert data == data[..start] + data[start..];
      assert data[..start] + (Table(f.libs) + f.trailer) == data[..start] + Table(f.libs) + f.trailer;
    }
  }

  /** Round trip: parsing a file with the origin this parser assumes lists its libraries, in order. */
  lemma RoundTrip(f: File)
    requires Encodable(f) && f.origin == ParserOrigin(f.format)
    ensures Listing(Encode(f)) == PairsOf(f.libs)
  {
    EncodedExactly(f);
    forall i | 0 <= i < |f.libs| ensures StandsThere(f, i) {
      StandsAsAssumed(f, i);
    }
  }

  /** So the parsed map is that of the encoded libraries, later duplicates winning, and there is only one such map. */
  method ParseEncoded(f: File) returns (entries: Entries)
    requires Encodable(f) && f.origin == ParserOrigin(f.format)
    ensures Means(entries, PairsOf(f.libs))
    ensures forall m: Entries :: Means(m, PairsOf(f.libs)) ==> m == entries
  {
    RoundTrip(f);
    entries := Parse(Encode(f));
    forall m: Entries | Means(m, PairsOf(f.libs)) ensures m == entries {
      MeansUnique(m, entries, PairsOf(f.libs));
    }
  }

  // ---- Files with glibc's origins ----

  /** A string of a library also stands, terminated, `At(n)` bytes behind its own place, or in front of it. */
  ghost predicate StandsDisplaced(f: File, s: Bytes, at: nat) {
    var place, displacement := f.format.At(|f.libs|) + at, f.format.At(|f.libs|);
    RunAt(Encode(f), s, if f.format.New? then place + displacement else place - displacement)
  }

  /**
   * A cache with glibc's origins is listed right exactly if each of its strings
   * also stands, terminated, as many bytes behind its own place as header and
   * entries take in the new format, and as many in front of it in the old one.
   */
  lemma GlibcExactly(f: File)
    requires Encodable(f) && f.origin == GlibcOrigin(f.format)
    ensures Listing(Encode(f)) == PairsOf(f.libs) <==>
      forall i :: 0 <= i < |f.libs| ==>
        && StandsDisplaced(f, f.libs[i].name, |Table(f.libs[..i])|)
        && StandsDisplaced(f, f.libs[i].path, |Table(f.libs[..i])| + |f.libs[i].name| + 1)
  {
    hide Listing, Encode, RunAt, Table;
    EncodedExactly(f);
    forall i | 0 <= i < |f.libs|
      ensures StandsThere(f, i) <==>
        && StandsDisplaced(f, f.libs[i].name, |Table(f.libs[..i])|)
        && StandsDisplaced(f, f.libs[i].path, |Table(f.libs[..i])| + |f.libs[i].name| + 1)
    {
      var start := f.format.At(|f.libs|);
      assert LooksAt(f, i) == (if f.format.New? then start + start else 0) + |Table(f.libs[..i])|;
    }
  }

  /**
   * In the new format less than header and entries after the strings is not enough: such a cache is listed right
   * only if empty.
   */
  lemma GlibcNewFails(f: File)
    requires Encodable(f) && f.format.New? && f.origin == GlibcOrigin(f.format)
    requires |f.trailer| < f.format.At(|f.libs|)
    ensures Listing(Encode(f)) == PairsOf(f.libs) <==> f.libs == []
  {
    hide Encode, Listing, Table, Encodable;
    EncodedExactly(f);
    EncodedParts(f);
    if f.libs != [] {
      var i := |f.libs| - 1;
      TableStep(f.libs, i);
      assert f.libs[..|f.libs|] == f.libs;
      assert |Encode(f)| == f.format.At(|f.libs|) + |Table(f.libs)| + |f.trailer|;
      assert |Table(f.libs)| == |Table(f.libs[..i])| + |f.libs[i].name| + |f.libs[i].path| + 2;
      assert !StandsThere(f, i);
    }
  }

  /**
   * In the old format the first name is looked for at the start of the file: only one that starts with the magic
   * is found.
   */
  lemma GlibcOldFails(f: File)
    requires Encodable(f) && f.format.Old? && f.origin == GlibcOrigin(f.format)
    requires f.libs == [] || !(MAGIC_OLD <= f.libs[0].name)
    ensures Listing(Encode(f)) == PairsOf(f.libs) <==> f.libs == []
  {
    hide Listing, Encodable;
    EncodedExactly(f);
    if f.libs != [] {
      assert f.libs[..0] == [] && LooksAt(f, 0) == 0;
      if StandsThere(f, 0) { OldNameAtFront(f); }
    }
  }

  lemma OldNameAtFront(f: File)
    requires Encodable(f) && f.format.Old? && f.libs != [] && RunAt(Encode(f), f.libs[0].name, 0)
    ensures MAGIC_OLD <= f.libs[0].name
  {
  }

  /** One library, a at path b, and after its strings 68 zeros and two more strings, c and d. */
  const MISREAD := File(New, FromFile,
    [Lib([0, 0, 0, 0], [0x61], [0x62], seq(12, _ => 0))], seq(20, _ => 0),
    seq(68, _ => 0) + [0x63, 0, 0x64, 0])

  /** A cache with glibc's origin can be misread, not only missed: this one is listed as c at path d. */
  lemma MisreadFile()
    ensures Encodable(MISREAD) && MISREAD.origin == GlibcOrigin(MISREAD.format)
    ensures PairsOf(MISREAD.libs) == [([0x61], [0x62])] && Listing(Encode(MISREAD)) == [([0x63], [0x64])]
  {
    var f := MISREAD;
    MisreadParts();
    hide Encode, Listing, Table, Encodable, ReadU32, EncodeEntry;
    EncodedParts(f);
    HeaderRoundTrip(f);
    EncodedEntry(f, 0);
    OffsetsFit(f, 0);
    EntryOffsets(f.libs[0], 72);
    var strings := f.format.Strings(Encode(f), 1);
    assert strings == [0x61, 0, 0x62, 0] + f.trailer;
    assert RunAt(strings, [0x63], 72) && RunAt(strings, [0x64], 74);
    LayoutExactly(Encode(f), [([0x63], [0x64])]);
  }

  lemma MisreadParts()
    ensures Encodable(MISREAD) && Table(MISREAD.libs) == [0x61, 0, 0x62, 0] && Table(MISREAD.libs[..0]) == []
    ensures PairsOf(MISREAD.libs) == [([0x61], [0x62])] && CleanString([0x63]) && CleanString([0x64])
  {
    var l := MISREAD.libs[0];
    assert MISREAD.libs[..0] == [];
    assert LibStrings(l) == [0x61, 0, 0x62, 0];
    assert Table(MISREAD.libs) == Table([]) + LibStrings(l);
    forall b: u8 | b < 0x80 ensures ValidUtf8([b]) {
      assert [b][1..] == [];
    }
  }
}
