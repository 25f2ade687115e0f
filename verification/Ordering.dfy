/**
 The packed table of a message type's fields: six header words, four arrays of words, and the
 characters of the names, in one allocation.
 */
module Ordering {
  import opened Octets
  import opened Varint
  import opened Scalars

  const HEADER_WORDS: nat := 6
  const MAX_NUMBER: nat := 536_870_911
  const MAX_COUNT: nat := MAX_NUMBER

  datatype FieldDefinition = FieldDefinition(jsonName: Octets, number: nat, propertyIndex: nat, flags: nat)

  predicate Legal(f: FieldDefinition) {
    1 <= f.number <= MAX_NUMBER
  }

  predicate AllLegal(fields: seq<FieldDefinition>) {
    forall i :: 0 <= i < |fields| ==> Legal(fields[i])
  }

  /** The other members are unsigned 32-bit words by their type, and so must the offsets be. */
  predicate Representable(name: Octets, fields: seq<FieldDefinition>) {
    && |Chars(name, fields)| < TWO_TO_32
    && forall i :: 0 <= i < |fields| ==> fields[i].number < TWO_TO_32 && fields[i].propertyIndex < TWO_TO_32
                                         && fields[i].flags < TWO_TO_32
  }

  // ---------- the layout ----------

  function Names(fields: seq<FieldDefinition>): Octets {
    if fields == [] then [] else Names(fields[..|fields| - 1]) + fields[|fields| - 1].jsonName + [0]
  }

  function Chars(name: Octets, fields: seq<FieldDefinition>): Octets {
    name + [0] + Names(fields) + [0]
  }

  /** Where the name of field `i` starts among the characters; for the last, where they end. */
  function Offset(name: Octets, fields: seq<FieldDefinition>, i: nat): nat
    requires i <= |fields|
  {
    |name| + 1 + |Names(fields[..i])|
  }

  function WordCount(n: nat): nat {
    HEADER_WORDS + 4 * n + 1
  }

  function WordAt(name: Octets, fields: seq<FieldDefinition>, k: nat): nat
    requires k < WordCount(|fields|)
  {
    var n := |fields|;
    if k == 0 then 0
    else if k == 1 then n
    else if k == 2 then n + 1
    else if k == 3 then 2 * n + 1
    else if k == 4 then 3 * n + 1
    else if k == 5 then |name|
    else if k <= 6 + n then Offset(name, fields, k - 6)
    else if k <= 6 + 2 * n then fields[k - 7 - n].number
    else if k <= 6 + 3 * n then fields[k - 7 - 2 * n].propertyIndex
    else fields[k - 7 - 3 * n].flags
  }

  /** The word that starts at octet 4k. */
  function Word(s: Octets, k: nat): (w: nat)
    requires 4 * k + 4 <= |s|
    ensures w < TWO_TO_32
  {
    Pow256Sizes();
    FromLittleEndian(s[4 * k..4 * k + 4])
  }

  /** The whole table: every word in its place, then the characters, and nothing else. */
  predicate IsTable(s: Octets, name: Octets, fields: seq<FieldDefinition>) {
    var base := 4 * WordCount(|fields|);
    && |s| == base + |Chars(name, fields)|
    && s[base..] == Chars(name, fields)
    && forall k :: 0 <= k < WordCount(|fields|) ==> Word(s, k) == WordAt(name, fields, k)
  }

  // ---------- names ----------

  lemma {:induction false} NamesAt(fields: seq<FieldDefinition>, i: nat)
    requires i < |fields|
    ensures |Names(fields[..i + 1])| == |Names(fields[..i])| + |fields[i].jsonName| + 1
    ensures |Names(fields[..i + 1])| <= |Names(fields)|
    ensures Names(fields)[|Names(fields[..i])|..|Names(fields[..i + 1])|] == fields[i].jsonName + [0]
    decreases |fields|
  {
    var front, last := fields[..|fields| - 1], fields[|fields| - 1];
    assert fields[..i + 1][..i] == fields[..i];
    if i + 1 == |fields| {
      assert fields[..i + 1] == fields && fields[..i] == front;
      assert Names(fields) == Names(front) + (last.jsonName + [0]);
    } else {
      NamesAt(front, i);
      assert front[..i] == fields[..i] && front[..i + 1] == fields[..i + 1];
      assert Names(fields)[..|Names(front)|] == Names(front);
    }
  }

  // ---------- the readers ----------

  function Count(s: Octets): nat
    requires |s| >= 4 * HEADER_WORDS
  {
    Word(s, 1)
  }

  /** uint_dataForIndex. */
  function DataForIndex(s: Octets, index: nat, offset: nat): nat
    requires 4 * (HEADER_WORDS + offset + index) + 4 <= |s|
  {
    Word(s, HEADER_WORDS + offset + index)
  }

  /** char_data: the characters start behind the last flag. */
  function CharData(s: Octets): nat
    requires |s| >= 4 * HEADER_WORDS
  {
    4 * HEADER_WORDS + 4 * (Word(s, 4) + Word(s, 1))
  }

  function MessageFullName(s: Octets): Octets
    requires |s| >= 4 * HEADER_WORDS && CharData(s) + Word(s, 5) <= |s|
  {
    s[CharData(s)..][..Word(s, 5)]
  }

  /** The reads that jsonName makes stay inside the table. */
  predicate NameReadable(s: Octets, index: nat) {
    && |s| >= 4 * HEADER_WORDS
    && 4 * (HEADER_WORDS + index + 1) + 4 <= |s|
    && DataForIndex(s, index + 1, 0) - 1 >= DataForIndex(s, index, 0)
    && CharData(s) + DataForIndex(s, index + 1, 0) <= |s|
  }

  /** The length of a name is the distance to the next one, less its terminator. */
  function JsonName(s: Octets, index: int): Octets
    requires |s| >= 4 * HEADER_WORDS
    requires 0 <= index < Count(s) ==> NameReadable(s, index)
  {
    if index < 0 || index >= Count(s) then []
    else
      var stringOffset := DataForIndex(s, index, 0);
      var nameLength := DataForIndex(s, index + 1, 0) - 1 - stringOffset;
      s[CharData(s) + stringOffset..][..nameLength]
  }

  predicate EntryReadable(s: Octets, index: nat, offset: nat) {
    4 * (HEADER_WORDS + offset + index) + 4 <= |s|
  }

  function FieldNumber(s: Octets, index: int): int
    requires |s| >= 4 * HEADER_WORDS
    requires 0 <= index < Count(s) ==> EntryReadable(s, index, Word(s, 2))
  {
    if index < 0 || index >= Count(s) then -1
    else
      var number := DataForIndex(s, index, Word(s, 2));
      if number > TWO_TO_31 - 1 then -1 else number
  }

  function PropertyIndex(s: Octets, index: int): int
    requires |s| >= 4 * HEADER_WORDS
    requires 0 <= index < Count(s) ==> EntryReadable(s, index, Word(s, 3))
  {
    if index < 0 || index >= Count(s) then -1
    else
      var propertyIndex := DataForIndex(s, index, Word(s, 3));
      if propertyIndex > TWO_TO_31 - 1 then -1 else propertyIndex
  }

  function FieldFlags(s: Octets, index: int): nat
    requires |s| >= 4 * HEADER_WORDS
    requires 0 <= index < Count(s) ==> EntryReadable(s, index, Word(s, 4))
  {
    if index < 0 || index >= Count(s) then 0 else DataForIndex(s, index, Word(s, 4))
  }

  lemma TableHeader(s: Octets, name: Octets, fields: seq<FieldDefinition>)
    requires IsTable(s, name, fields)
    ensures |s| >= 4 * HEADER_WORDS && Count(s) == |fields| && CharData(s) == 4 * WordCount(|fields|)
    ensures Word(s, 2) == |fields| + 1 && Word(s, 3) == 2 * |fields| + 1 && Word(s, 4) == 3 * |fields| + 1
    ensures Word(s, 5) == |name|
  {
    hide Word;
    var n := |fields|;
    assert Word(s, 1) == WordAt(name, fields, 1) && Word(s, 2) == WordAt(name, fields, 2);
    assert Word(s, 3) == WordAt(name, fields, 3) && Word(s, 4) == WordAt(name, fields, 4);
    assert Word(s, 5) == WordAt(name, fields, 5);
  }

  /** The numeric readers return what was added, and stay inside the table. */
  lemma EntryRead(s: Octets, name: Octets, fields: seq<FieldDefinition>, i: nat)
    requires IsTable(s, name, fields) && i < |fields| && AllLegal(fields)
    ensures |s| >= 4 * HEADER_WORDS && Count(s) == |fields|
    ensures EntryReadable(s, i, Word(s, 2)) && FieldNumber(s, i) == fields[i].number
    ensures EntryReadable(s, i, Word(s, 3))
            && PropertyIndex(s, i) == (if fields[i].propertyIndex < TWO_TO_31 then fields[i].propertyIndex else -1)
    ensures EntryReadable(s, i, Word(s, 4)) && FieldFlags(s, i) == fields[i].flags
  {
    hide Word;
    var n := |fields|;
    TableHeader(s, name, fields);
    assert Legal(fields[i]);
    assert Word(s, 6 + (n + 1) + i) == WordAt(name, fields, 6 + (n + 1) + i);
    assert Word(s, 6 + (2 * n + 1) + i) == WordAt(name, fields, 6 + (2 * n + 1) + i);
    assert Word(s, 6 + (3 * n + 1) + i) == WordAt(name, fields, 6 + (3 * n + 1) + i);
  }

  /** And so do the readers of names. */
  lemma NameRead(s: Octets, name: Octets, fields: seq<FieldDefinition>, i: nat)
    requires IsTable(s, name, fields) && i < |fields|
    ensures NameReadable(s, i) && Count(s) == |fields| && JsonName(s, i) == fields[i].jsonName
  {
    hide Word, Names;
    var n, base, chars := |fields|, 4 * WordCount(|fields|), Chars(name, fields);
    TableHeader(s, name, fields);
    assert Word(s, 6 + i) == WordAt(name, fields, 6 + i) == Offset(name, fields, i);
    assert Word(s, 6 + (i + 1)) == WordAt(name, fields, 6 + (i + 1)) == Offset(name, fields, i + 1);
    NamesAt(fields, i);
    var a, b := Offset(name, fields, i), Offset(name, fields, i + 1);
    var names, p, q := Names(fields), |Names(fields[..i])|, |Names(fields[..i + 1])|;
    assert chars[a..b] == names[p..q];
    assert s[base + a..][..b - 1 - a] == chars[a..b][..b - 1 - a];
    assert names[p..q][..b - 1 - a] == fields[i].jsonName;
  }

  lemma FullNameRead(s: Octets, name: Octets, fields: seq<FieldDefinition>)
    requires IsTable(s, name, fields)
    ensures |s| >= 4 * HEADER_WORDS && CharData(s) + Word(s, 5) <= |s| && MessageFullName(s) == name
  {
    hide Word, Names;
    TableHeader(s, name, fields);
    assert s[4 * WordCount(|fields|)..] == Chars(name, fields);
  }

  predicate DistinctNumbers(fields: seq<FieldDefinition>) {
    forall i, j :: 0 <= i < j < |fields| ==> fields[i].number != fields[j].number
  }

  /** indexOfFieldNumber: the first field with the number, or -1. */
  method IndexOfFieldNumber(s: Octets, number: int, ghost name: Octets, ghost fields: seq<FieldDefinition>)
    returns (index: int)
    requires IsTable(s, name, fields) && AllLegal(fields) && |s| >= 4 * HEADER_WORDS
    requires number < TWO_TO_31
    ensures -1 <= index < |fields|
    ensures index == -1 <==> forall j :: 0 <= j < |fields| ==> fields[j].number != number
    ensures index >= 0 ==> fields[index].number == number
                           && forall j :: 0 <= j < index ==> fields[j].number != number
    ensures DistinctNumbers(fields) ==>
              forall j :: 0 <= j < |fields| && fields[j].number == number ==> index == j
  {
    hide Word, IsTable;
    TableHeader(s, name, fields);
    if number > 0 {
      for i := 0 to Count(s)
        invariant forall j :: 0 <= j < i ==> fields[j].number != number
      {
        EntryRead(s, name, fields, i);
        if DataForIndex(s, i, Word(s, 2)) == number {
          return i;
        }
      }
      return -1;
    }
    assert forall j :: 0 <= j < |fields| ==> Legal(fields[j]);
    return -1;
  }

  // ---------- the builder ----------

  /** The octets of one word replaced. */
  function Put(s: Octets, at: nat, d: Octets): (r: Octets)
    requires at + |d| <= |s|
    ensures |r| == |s|
  {
    s[..at] + d + s[at + |d|..]
  }

  lemma PutWord(s: Octets, k: nat, w: nat, j: nat)
    requires 4 * k + 4 <= |s| && 4 * j + 4 <= |s| && w < TWO_TO_32
    ensures Word(Put(s, 4 * k, LittleEndian(w, 4)), j) == if j == k then w else Word(s, j)
  {
    Pow256Sizes();
    var r := Put(s, 4 * k, LittleEndian(w, 4));
    if j == k {
      LittleEndianRoundTrip(w, 4);
      assert r[4 * j..4 * j + 4] == LittleEndian(w, 4);
    } else {
      assert r[4 * j..4 * j + 4] == s[4 * j..4 * j + 4];
    }
  }

  lemma PutBehind(s: Octets, at: nat, d: Octets, j: nat)
    requires at + |d| <= |s| && 4 * j + 4 <= at
    ensures Word(Put(s, at, d), j) == Word(s, j)
  {
    assert Put(s, at, d)[4 * j..4 * j + 4] == s[4 * j..4 * j + 4];
  }

  /** The words the loop over the fields has written after `i` turns. */
  predicate Written(k: nat, n: nat, i: nat) {
    || k < 6
    || 6 <= k < 6 + i
    || 7 + n <= k < 7 + n + i
    || 7 + 2 * n <= k < 7 + 2 * n + i
    || 7 + 3 * n <= k < 7 + 3 * n + i
  }

  predicate WordsWritten(s: Octets, name: Octets, fields: seq<FieldDefinition>, i: nat)
    requires |s| >= 4 * WordCount(|fields|)
  {
    forall k :: 0 <= k < WordCount(|fields|) && Written(k, |fields|, i) ==> Word(s, k) == WordAt(name, fields, k)
  }

  method CopyTo(a: array<Octet>, at: nat, d: Octets)
    requires at + |d| <= a.Length
    modifies a
    ensures a[..] == Put(old(a[..]), at, d)
  {
    for k := 0 to |d|
      invariant forall j :: 0 <= j < a.Length ==>
                  a[j] == if at <= j < at + k then d[j - at] else old(a[j])
    {
      a[at + k] := d[k];
    }
  }

  method SetWord(a: array<Octet>, k: nat, w: nat)
    requires 4 * k + 4 <= a.Length && w < TWO_TO_32
    modifies a
    ensures forall j :: 0 <= j && 4 * j + 4 <= a.Length ==>
              Word(a[..], j) == if j == k then w else old(Word(a[..], j))
  {
    CopyTo(a, 4 * k, LittleEndian(w, 4));
    forall j: nat | 4 * j + 4 <= a.Length
      ensures Word(a[..], j) == if j == k then w else old(Word(a[..], j))
    {
      PutWord(old(a[..]), k, w, j);
    }
  }

  class QProtobufPropertyOrderingBuilder {
    const packageName: Octets
    var fields: seq<FieldDefinition>

    constructor (packageName: Octets)
      ensures this.packageName == packageName && fields == []
    {
      this.packageName := packageName;
      fields := [];
    }

    method AddV0Field(jsonName: Octets, number: nat, propertyIndex: nat, flags: nat)
      modifies this
      ensures fields == old(fields) + [FieldDefinition(jsonName, number, propertyIndex, flags)]
    {
      fields := fields + [FieldDefinition(jsonName, number, propertyIndex, flags)];
    }

    method WriteHeader(a: array<Octet>)
      requires |fields| <= MAX_COUNT && Representable(packageName, fields)
      requires a.Length >= 4 * WordCount(|fields|)
      modifies a
      ensures WordsWritten(a[..], packageName, fields, 0)
    {
      hide Word, Names;
      var n := |fields|;
      SetWord(a, 0, 0);
      SetWord(a, 1, n);
      SetWord(a, 2, n * 1 + 1);
      SetWord(a, 3, n * 2 + 1);
      SetWord(a, 4, n * 3 + 1);
      SetWord(a, 5, |packageName|);
    }

    /** One turn of the loop: the words of field `i`; `offset` is where its name will start. */
    method WriteField(a: array<Octet>, i: nat, offset: nat)
      requires i < |fields| && Representable(packageName, fields)
      requires a.Length >= 4 * WordCount(|fields|)
      requires WordsWritten(a[..], packageName, fields, i)
      requires offset == Offset(packageName, fields, i) < TWO_TO_32
      modifies a
      ensures WordsWritten(a[..], packageName, fields, i + 1)
    {
      hide Word, Names;
      var n, field := |fields|, fields[i];
      SetWord(a, HEADER_WORDS + i, offset);
      SetWord(a, HEADER_WORDS + i + (n * 1 + 1), field.number);
      SetWord(a, HEADER_WORDS + i + (n * 2 + 1), field.propertyIndex);
      SetWord(a, HEADER_WORDS + i + (n * 3 + 1), field.flags);
    }

    method WriteWords(a: array<Octet>) returns (ok: bool)
      requires |fields| <= MAX_COUNT && Representable(packageName, fields)
      requires a.Length >= 4 * WordCount(|fields|)
      modifies a
      ensures ok == AllLegal(fields)
      ensures ok ==> forall k :: 0 <= k < WordCount(|fields|) ==> Word(a[..], k) == WordAt(packageName, fields, k)
    {
      hide Word, Names;
      WriteHeader(a);
      var jsonArrayOffset := |packageName| + 1;
      NoNames();
      assert fields[..0] == [];
      for i := 0 to |fields|
        invariant WordsWritten(a[..], packageName, fields, i)
        invariant jsonArrayOffset == Offset(packageName, fields, i)
        invariant forall j :: 0 <= j < i ==> Legal(fields[j])
      {
        if fields[i].number > MAX_NUMBER || fields[i].number < 1 {
          return false;
        }
        NamesAt(fields, i);
        WriteField(a, i, jsonArrayOffset);
        jsonArrayOffset := jsonArrayOffset + |fields[i].jsonName| + 1;
      }
      assert fields[..|fields|] == fields;
      SetWord(a, HEADER_WORDS + |fields|, jsonArrayOffset);
      return true;
    }

    /** Characters are copied behind the words, after those that have been copied before. */
    method AppendChars(a: array<Octet>, at: nat, d: Octets) returns (next: nat)
      requires 4 * WordCount(|fields|) <= at && at + |d| <= a.Length
      modifies a
      ensures next == at + |d|
      ensures a[4 * WordCount(|fields|)..next] == old(a[4 * WordCount(|fields|)..at]) + d
      ensures forall k :: 0 <= k < WordCount(|fields|) ==> Word(a[..], k) == old(Word(a[..], k))
    {
      CopyTo(a, at, d);
      next := at + |d|;
      var base := 4 * WordCount(|fields|);
      assert a[base..next] == a[..][base..next];
      assert old(a[base..at]) == old(a[..])[base..at];
      forall k | 0 <= k < WordCount(|fields|)
        ensures Word(a[..], k) == old(Word(a[..], k))
      {
        PutBehind(old(a[..]), at, d, k);
      }
    }

    method WriteChars(a: array<Octet>)
      requires a.Length == 4 * WordCount(|fields|) + |Chars(packageName, fields)|
      modifies a
      ensures a[4 * WordCount(|fields|)..] == Chars(packageName, fields)
      ensures forall k :: 0 <= k < WordCount(|fields|) ==> Word(a[..], k) == old(Word(a[..], k))
    {
      hide Word, Names;
      NoNames();
      assert fields[..0] == [];
      ghost var base := 4 * WordCount(|fields|);
      var charData := AppendChars(a, 4 * WordCount(|fields|), packageName + [0]);
      for i := 0 to |fields|
        invariant charData == base + Offset(packageName, fields, i) < a.Length
        invariant a[base..charData] == packageName + [0] + Names(fields[..i])
        invariant forall k :: 0 <= k < WordCount(|fields|) ==> Word(a[..], k) == old(Word(a[..], k))
      {
        NamesAt(fields, i);
        NamesMore(fields, i, packageName + [0]);
        charData := AppendChars(a, charData, fields[i].jsonName + [0]);
      }
      assert fields[..|fields|] == fields;
      charData := AppendChars(a, charData, [0]);
      assert a[base..charData] == a[base..];
    }

    /** build: no table for an illegal field number; otherwise the allocation holds the table exactly. */
    method Build() returns (table: Option<array<Octet>>)
      requires Representable(packageName, fields)
      ensures table.Some? <==> |fields| <= MAX_COUNT && AllLegal(fields)
      ensures table.Some? ==> fresh(table.value) && IsTable(table.value[..], packageName, fields)
    {
      hide Word, Names;
      if |fields| > MAX_COUNT {
        return None;
      }
      var charSpaceNeeded := 1 + |packageName| + 1 + |Names(fields)|;
      var spaceNeeded := 4 * HEADER_WORDS + |fields| * 4 * 4 + 4 + charSpaceNeeded;
      var storage := new Octet[spaceNeeded](_ => 0);
      var ok := WriteWords(storage);
      if !ok {
        return None;
      }
      WriteChars(storage);
      assert storage[..][4 * WordCount(|fields|)..] == storage[4 * WordCount(|fields|)..];
      return Some(storage);
    }
  }

  lemma NoNames()
    ensures Names([]) == []
  {
  }

  lemma NamesMore(fields: seq<FieldDefinition>, i: nat, front: Octets)
    requires i < |fields|
    ensures front + Names(fields[..i + 1]) == front + Names(fields[..i]) + (fields[i].jsonName + [0])
  {
    assert fields[..i + 1][..i] == fields[..i];
  }
}
