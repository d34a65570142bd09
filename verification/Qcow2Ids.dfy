/**
 Snapshot ids: finding a snapshot by id or name, and making up an id for a new
 one, which is one more than the largest that the ids read as.
 */
module Qcow2Ids {
  import opened Collections
  import opened Qcow2Layout

  const INT_MAX: int := 0x7fff_ffff
  const INT_MIN: int := -0x8000_0000
  const ULONG_MAX: nat := 0xffff_ffff_ffff_ffff

  // ----- finding a snapshot

  /** find_snapshot_by_id: the place of the first snapshot with this id; past the end if none. */
  function IndexOfId(tags: seq<Tag>, id: string): (r: nat)
    ensures r <= |tags| && (r < |tags| ==> tags[r].id == id)
    ensures forall k :: 0 <= k < r ==> tags[k].id != id
  {
    First(tags, (s: Tag) => s.id == id, 0)
  }

  /** find_snapshot_by_id_or_name: an id wins over a name. */
  function IndexOf(tags: seq<Tag>, name: string): (r: nat)
    ensures r <= |tags|
    ensures r == |tags| <==> forall k :: 0 <= k < |tags| ==> tags[k].id != name && tags[k].name != name
    ensures r < |tags| && tags[r].id != name ==>
      tags[r].name == name && (forall k :: 0 <= k < |tags| ==> tags[k].id != name)
        && (forall k :: 0 <= k < r ==> tags[k].name != name)
  {
    if IndexOfId(tags, name) < |tags| then IndexOfId(tags, name) else First(tags, (s: Tag) => s.name == name, 0)
  }

  // ----- numbers as text

  predicate IsDigit(c: char) {
    '0' <= c <= '9'
  }

  function DigitValue(c: char): nat
    requires IsDigit(c)
  {
    c as int - '0' as int
  }

  function Digit(d: nat): char
    requires d < 10
  {
    ('0' as int + d) as char
  }

  /** A number as "%d" prints it. */
  function Decimal(n: nat): string {
    if n < 10 then [Digit(n)] else Decimal(n / 10) + [Digit(n % 10)]
  }

  function Printed(i: int): string {
    if i < 0 then "-" + Decimal(-i) else Decimal(i)
  }

  /** How many of the characters from i on are digits. */
  function DigitsEnd(s: string, i: nat): (r: nat)
    requires i <= |s|
    ensures i <= r <= |s| && forall k :: i <= k < r ==> IsDigit(s[k])
    ensures r < |s| ==> !IsDigit(s[r])
    decreases |s| - i
  {
    if i == |s| || !IsDigit(s[i]) then i else DigitsEnd(s, i + 1)
  }

  function Value(digits: string): nat
    requires forall k :: 0 <= k < |digits| ==> IsDigit(digits[k])
  {
    if digits == "" then 0 else Value(digits[..|digits| - 1]) * 10 + DigitValue(digits[|digits| - 1])
  }

  function SkipBlanks(s: string): (r: string)
    ensures |s| > 0 && IsDigit(s[0]) ==> r == s
  {
    if s != "" && s[0] in " \t\n\r" + [11 as char, 12 as char] then SkipBlanks(s[1..]) else s
  }

  /** strtoul in base ten, for an unsigned long of 64 bits. */
  function Strtoul(s: string): nat {
    var t := SkipBlanks(s);
    var signed := t != "" && t[0] in "+-";
    var u := if signed then t[1..] else t;
    var v := Value(u[..DigitsEnd(u, 0)]);
    if v > ULONG_MAX then ULONG_MAX
    else if signed && t[0] == '-' then (ULONG_MAX + 1 - v) % (ULONG_MAX + 1)
    else v
  }

  /** An unsigned long stored in an int of 32 bits. */
  function AsInt(u: nat): (i: int)
    ensures INT_MIN <= i <= INT_MAX
  {
    var low := u % 0x1_0000_0000;
    if low <= 0x7fff_ffff then low else low - 0x1_0000_0000
  }

  function IdNumber(s: string): int {
    AsInt(Strtoul(s))
  }

  lemma {:induction false} DecimalDigits(n: nat)
    ensures |Decimal(n)| > 0 && forall k :: 0 <= k < |Decimal(n)| ==> IsDigit(Decimal(n)[k])
    ensures Value(Decimal(n)) == n
  {
    if n < 10 {
      assert Decimal(n)[..0] == "";
    } else {
      DecimalDigits(n / 10);
      assert Decimal(n)[..|Decimal(n)| - 1] == Decimal(n / 10);
    }
  }

  /** Reading back what was printed. */
  lemma PrintedReads(n: nat)
    requires n <= INT_MAX
    ensures IdNumber(Printed(n)) == n
  {
    var s := Decimal(n);
    DecimalDigits(n);
    assert SkipBlanks(s) == s && IsDigit(s[0]);
    assert s[..DigitsEnd(s, 0)] == s;
  }

  // ----- a new id

  /** What the ids read as. */
  function Numbers(read: string -> int, tags: seq<Tag>): (r: seq<int>)
    ensures |r| == |tags| && forall k :: 0 <= k < |r| ==> r[k] == read(tags[k].id)
  {
    seq(|tags|, k requires 0 <= k < |tags| => read(tags[k].id))
  }

  /** The largest of the first n numbers, and 0. */
  function Largest(numbers: seq<int>, n: nat): (max: int)
    requires n <= |numbers|
    ensures 0 <= max && forall k :: 0 <= k < n ==> numbers[k] <= max
    ensures max == 0 || exists k :: 0 <= k < n && numbers[k] == max
  {
    if n == 0 then 0
    else
      var rest := Largest(numbers, n - 1);
      if numbers[n - 1] > rest then numbers[n - 1] else rest
  }

  function Successor(max: int): int {
    if max == INT_MAX then INT_MIN else max + 1
  }

  /** The id made up for a new snapshot; the sum wraps around. */
  function NewId(tags: seq<Tag>): string {
    Printed(Successor(Largest(Numbers(IdNumber, tags), |tags|)))
  }

  /** The id that a new snapshot gets. */
  function IdFor(tags: seq<Tag>, id: string): string {
    if id == "" then NewId(tags) else id
  }

  /** Printing is in base ten, with a sign. */
  lemma PrintedExamples()
    ensures Printed(9) == "9" && Printed(205) == "205" && Printed(-17) == "-17"
  {
    assert Decimal(20) == "20";
  }

  /** Reading skips blanks, takes a sign, and stops at the first character that is not a digit. */
  lemma ReadExample()
    ensures Strtoul(" +42x9") == 42
  {
    assert SkipBlanks(" +42x9") == "+42x9" && "+42x9"[1..] == "42x9";
    assert DigitsEnd("42x9", 2) == 2 && "42x9"[..2] == "42" && "42"[..1] == "4" && "4"[..0] == "";
  }

  lemma NegativeExample()
    ensures Strtoul("-1") == ULONG_MAX && AsInt(ULONG_MAX) == -1
  {
    assert SkipBlanks("-1") == "-1" && "-1"[1..] == "1";
    assert DigitsEnd("1", 1) == 1 && "1"[..1] == "1" && "1"[..0] == "";
  }

  /** max is the largest of the numbers, or 0 if none is more. */
  ghost predicate IsLargest(numbers: seq<int>, max: int) {
    && 0 <= max && (forall k :: 0 <= k < |numbers| ==> numbers[k] <= max)
    && (max == 0 || exists k :: 0 <= k < |numbers| && numbers[k] == max)
  }

  lemma NumberAt(tags: seq<Tag>, k: nat)
    requires k < |tags|
    ensures Numbers(IdNumber, tags)[k] == IdNumber(tags[k].id) <= INT_MAX
  {
  }

  /** If no number is the largest there is, the new id reads as a number that none is. */
  lemma FreshNumber(tags: seq<Tag>, max: int)
    requires IsLargest(Numbers(IdNumber, tags), max) && max < INT_MAX
    ensures forall k :: 0 <= k < |tags| ==> tags[k].id != Printed(max + 1)
  {
    forall k | 0 <= k < |tags|
      ensures tags[k].id != Printed(max + 1)
    {
      NumberAt(tags, k);
      PrintedReads(max + 1);
    }
  }

  ghost predicate SomeReads(tags: seq<Tag>, v: int) {
    exists k :: 0 <= k < |tags| && IdNumber(tags[k].id) == v
  }

  lemma TopReached(tags: seq<Tag>, max: int)
    requires IsLargest(Numbers(IdNumber, tags), max)
    ensures max <= INT_MAX && (max == INT_MAX <==> SomeReads(tags, INT_MAX))
  {
    var numbers := Numbers(IdNumber, tags);
    if max != 0 {
      var k :| 0 <= k < |numbers| && numbers[k] == max;
      NumberAt(tags, k);
    }
    if SomeReads(tags, INT_MAX) {
      var k :| 0 <= k < |tags| && IdNumber(tags[k].id) == INT_MAX;
      NumberAt(tags, k);
    }
  }

  /** A made-up id is not taken, unless some id is the largest number there is
      and another is what the sum then wraps around to. */
  lemma NewIdIsFresh(tags: seq<Tag>)
    ensures IndexOfId(tags, NewId(tags)) == |tags| <==>
      !SomeReads(tags, INT_MAX) || forall k :: 0 <= k < |tags| ==> tags[k].id != Printed(INT_MIN)
  {
    var max := Largest(Numbers(IdNumber, tags), |tags|);
    assert IsLargest(Numbers(IdNumber, tags), max);
    TopReached(tags, max);
    if max < INT_MAX {
      FreshNumber(tags, max);
    }
  }

  /** The loop of find_new_snapshot_id, whatever the ids are read with. */
  method LargestNumber(read: string -> int, tags: seq<Tag>) returns (max: int)
    ensures max == Largest(Numbers(read, tags), |tags|) && IsLargest(Numbers(read, tags), max)
  {
    max := 0;
    ghost var numbers := Numbers(read, tags);
    for i := 0 to |tags|
      invariant max == Largest(numbers, i)
    {
      var number := read(tags[i].id);
      if number > max {
        max := number;
      }
    }
  }

  /** find_new_snapshot_id: one more than the largest number. */
  method FindNewSnapshotId(tags: seq<Tag>) returns (id: string)
    ensures id == NewId(tags)
    ensures exists max ::
      IsLargest(Numbers(IdNumber, tags), max) && id == Printed(if max == INT_MAX then INT_MIN else max + 1)
  {
    var max := LargestNumber(IdNumber, tags);
    id := Printed(if max == INT_MAX then INT_MIN else max + 1);
  }
}
