/** Decimal numbers and the comma-separated id list of the pod annotation (pkg/utils/pod.go). */
module Codec {
  import opened NodeState

  const UINT_LIMIT: nat := 0x1_0000_0000_0000_0000
  const INT_LIMIT: nat := 0x8000_0000_0000_0000

  // ---------- Decimal numbers ----------

  function Digit(d: nat): char
    requires d < 10
  {
    "0123456789"[d]
  }

  predicate IsDigit(c: char) {
    '0' <= c <= '9'
  }

  predicate AllDigits(s: string) {
    forall i :: 0 <= i < |s| ==> IsDigit(s[i])
  }

  /** The "%d" format of a non-negative number. */
  function Decimal(n: nat): string {
    if n < 10 then [Digit(n)] else Decimal(n / 10) + [Digit(n % 10)]
  }

  function DigitValue(c: char): nat
    requires IsDigit(c)
  {
    (c - '0') as int
  }

  function Value(s: string): nat
    requires AllDigits(s)
  {
    if s == "" then 0 else 10 * Value(s[..|s| - 1]) + DigitValue(s[|s| - 1])
  }

  /** strconv.Atoi on a 64-bit platform: an optional sign, at least one digit, and a value that fits. */
  function Atoi(s: string): Option<int> {
    var negative := s != "" && s[0] == '-';
    var digits := if s != "" && (s[0] == '-' || s[0] == '+') then s[1..] else s;
    if digits == "" || !AllDigits(digits) then None
    else if negative then (if Value(digits) <= INT_LIMIT then Some(0 - (Value(digits) as int)) else None)
    else (if Value(digits) < INT_LIMIT then Some(Value(digits)) else None)
  }

  lemma DigitRoundTrip(d: nat)
    requires d < 10
    ensures IsDigit(Digit(d)) && DigitValue(Digit(d)) == d && Digit(d) as int == '0' as int + d
  {
  }

  lemma {:induction false} DecimalRoundTrip(n: nat)
    ensures Decimal(n) != "" && AllDigits(Decimal(n)) && Value(Decimal(n)) == n
  {
    if n < 10 {
      DigitRoundTrip(n);
      assert Decimal(n)[..0] == "";
    } else {
      DecimalRoundTrip(n / 10);
      DigitRoundTrip(n % 10);
      var s := Decimal(n / 10);
      assert Decimal(n)[..|s|] == s;
    }
  }

  lemma AtoiOfDecimal(n: nat)
    ensures Atoi(Decimal(n)) == if n < INT_LIMIT then Some(n) else None
  {
    DecimalRoundTrip(n);
    assert IsDigit(Decimal(n)[0]);
  }

  // ---------- Which strings are read as numbers ----------

  function Zeros(k: nat): string {
    seq(k, _ => '0')
  }

  /** Decimals have no leading zero. */
  lemma {:induction false} DecimalIsShort(n: nat)
    ensures Decimal(0) == "0" && (n > 0 ==> Decimal(n)[0] != '0')
  {
    if n >= 10 { DecimalIsShort(n / 10); }
  }

  lemma {:induction false} ValueOfNumeral(k: nat, n: nat)
    ensures AllDigits(Zeros(k) + Decimal(n)) && Value(Zeros(k) + Decimal(n)) == n
  {
    var s := Zeros(k) + Decimal(n);
    DecimalRoundTrip(n);
    if n < 10 {
      DigitRoundTrip(n);
      ValueOfZeros(k);
      assert s[..|s| - 1] == Zeros(k);
    } else {
      ValueOfNumeral(k, n / 10);
      DigitRoundTrip(n % 10);
      assert s[..|s| - 1] == Zeros(k) + Decimal(n / 10);
    }
  }

  lemma {:induction false} ValueOfZeros(k: nat)
    ensures Value(Zeros(k)) == 0
  {
    if k > 0 {
      ValueOfZeros(k - 1);
      assert Zeros(k)[..k - 1] == Zeros(k - 1);
    }
  }

  lemma DecimalAppend(v: nat, d: nat)
    requires d < 10
    ensures Decimal(10 * v + d) == if v == 0 then [Digit(d)] else Decimal(v) + [Digit(d)]
  {
    if v > 0 { assert (10 * v + d) / 10 == v && (10 * v + d) % 10 == d; }
  }

  lemma DigitOfValue(c: char)
    requires IsDigit(c)
    ensures DigitValue(c) < 10 && Digit(DigitValue(c)) == c
  {
  }

  lemma OneMoreDigit(front: string, k: nat, v: nat, d: nat) returns (k': nat)
    requires d < 10 && front == Zeros(k) + Decimal(v)
    ensures front + [Digit(d)] == Zeros(k') + Decimal(10 * v + d)
  {
    DecimalAppend(v, d);
    k' := if v == 0 then k + 1 else k;
    if v == 0 { assert front == Zeros(k + 1); }
  }

  lemma ValueOfLast(front: string, c: char)
    requires AllDigits(front) && IsDigit(c)
    ensures AllDigits(front + [c]) && Value(front + [c]) == 10 * Value(front) + DigitValue(c)
  {
    assert (front + [c])[..|front|] == front;
  }

  lemma OneDigit(c: char)
    requires IsDigit(c)
    ensures [c] == Zeros(0) + Decimal(DigitValue(c))
  {
    DigitOfValue(c);
  }

  /** Every string of digits is the decimal of its value behind some zeros. */
  lemma {:induction false} NumeralForm(s: string, v: nat) returns (k: nat)
    requires AllDigits(s) && s != "" && v == Value(s)
    ensures s == Zeros(k) + Decimal(v)
  {
    var front, c := s[..|s| - 1], s[|s| - 1];
    assert s == front + [c];
    ValueOfLast(front, c);
    DigitOfValue(c);
    if front == "" {
      k := 0;
      OneDigit(c);
    } else {
      k := NumeralForm(front, Value(front));
      k := OneMoreDigit(front, k, Value(front), DigitValue(c));
    }
  }

  predicate Is64Bit(v: int) {
    -0x8000_0000_0000_0000 <= v < 0x8000_0000_0000_0000
  }

  function Abs(v: int): nat {
    if v < 0 then -v else v
  }

  /** An optional sign, zeros, and the decimal of the absolute value. */
  predicate Numeral(s: string, v: int, sign: string, k: nat) {
    && s == sign + Zeros(k) + Decimal(Abs(v))
    && (sign == "-" || ((sign == "" || sign == "+") && v >= 0)) && (sign == "-" ==> v <= 0)
  }

  /** Exactly the numerals of 64-bit numbers are read, as their values. */
  lemma AtoiIff(s: string, v: int)
    ensures Atoi(s) == Some(v) <==> (exists sign, k :: Numeral(s, v, sign, k)) && Is64Bit(v)
  {
    if Atoi(s) == Some(v) {
      ReadIsNumeral(s, v);
    }
    if sign, k :| Numeral(s, v, sign, k) {
      AtoiOfNumeral(s, v, sign, k);
    }
  }

  lemma SignOf(s: string) returns (sign: string, digits: string)
    requires Atoi(s).Some?
    ensures s == sign + digits && AllDigits(digits) && digits != "" && Is64Bit(Atoi(s).value)
    ensures if sign == "-" then Atoi(s).value == 0 - (Value(digits) as int)
            else (sign == "" || sign == "+") && Atoi(s).value == Value(digits)
  {
    if s[0] == '-' || s[0] == '+' {
      sign, digits := s[..1], s[1..];
      assert sign == [s[0]];
    } else {
      sign, digits := "", s;
    }
  }

  lemma ReadIsNumeral(s: string, v: int)
    requires Atoi(s) == Some(v)
    ensures (exists sign, k :: Numeral(s, v, sign, k)) && Is64Bit(v)
  {
    var sign, digits := SignOf(s);
    var k := NumeralForm(digits, Abs(v));
    Associative(sign, Zeros(k), Decimal(Abs(v)));
    assert Numeral(s, v, sign, k);
  }

  lemma Associative(a: string, b: string, c: string)
    ensures a + (b + c) == (a + b) + c
  {
  }

  lemma AtoiOfNumeral(s: string, v: int, sign: string, k: nat)
    requires Numeral(s, v, sign, k)
    ensures Atoi(s) == if Is64Bit(v) then Some(v) else None
  {
    var zeros, decimal := Zeros(k), Decimal(Abs(v));
    ValueOfNumeral(k, Abs(v));
    DecimalRoundTrip(Abs(v));
    Associative(sign, zeros, decimal);
    AtoiOfDigits(s, sign, zeros + decimal);
  }

  lemma AtoiOfDigits(s: string, sign: string, digits: string)
    requires s == sign + digits
    requires AllDigits(digits) && digits != "" && (sign == "" || sign == "+" || sign == "-")
    ensures var v: int := if sign == "-" then 0 - (Value(digits) as int) else Value(digits);
            Atoi(s) == if Is64Bit(v) then Some(v) else None
  {
    assert IsDigit(digits[0]);
    if sign == "" {
      assert s == digits;
    } else {
      assert s[0] == sign[0] && s[1..] == digits;
    }
  }

  // ---------- Splitting ----------

  /** strings.Split for a one-character separator. */
  function Split(s: string, sep: char): (parts: seq<string>)
    ensures |parts| >= 1
  {
    if s == "" then [""]
    else
      var rest := Split(s[1..], sep);
      if s[0] == sep then [""] + rest else [[s[0]] + rest[0]] + rest[1..]
  }

  lemma {:induction false} SplitOne(s: string, sep: char)
    requires sep !in s
    ensures Split(s, sep) == [s]
  {
    if s != "" {
      SplitOne(s[1..], sep);
      assert [s[0]] + s[1..] == s;
    }
  }

  lemma {:induction false} SplitLast(s: string, sep: char, last: string)
    requires sep !in last
    ensures Split(s + [sep] + last, sep) == Split(s, sep) + [last]
  {
    if s == "" {
      SplitOne(last, sep);
      assert s + [sep] + last == [sep] + last;
      assert ([sep] + last)[1..] == last;
    } else {
      SplitLast(s[1..], sep, last);
      assert (s + [sep] + last)[1..] == s[1..] + [sep] + last;
    }
  }

  /** strings.Join for a one-character separator. */
  function JoinWith(parts: seq<string>, sep: char): string
    requires parts != []
  {
    if |parts| == 1 then parts[0] else parts[0] + [sep] + JoinWith(parts[1..], sep)
  }

  lemma {:induction false} SplitFirst(first: string, sep: char, rest: string)
    requires sep !in first
    ensures Split(first + [sep] + rest, sep) == [first] + Split(rest, sep)
  {
    var s := first + [sep] + rest;
    if first == "" {
      assert s[1..] == rest;
    } else {
      assert s[1..] == first[1..] + [sep] + rest;
      SplitFirst(first[1..], sep, rest);
      assert [first[0]] + first[1..] == first;
    }
  }

  lemma {:induction false} JoinedIsSplit(parts: seq<string>, sep: char)
    requires parts != [] && forall p :: p in parts ==> sep !in p
    ensures Split(JoinWith(parts, sep), sep) == parts
  {
    if |parts| == 1 {
      SplitOne(parts[0], sep);
    } else {
      JoinedIsSplit(parts[1..], sep);
      SplitFirst(parts[0], sep, JoinWith(parts[1..], sep));
    }
  }

  lemma {:induction false} SplitIsJoined(s: string, sep: char)
    ensures JoinWith(Split(s, sep), sep) == s && forall p :: p in Split(s, sep) ==> sep !in p
  {
    if s != "" {
      var rest := Split(s[1..], sep);
      SplitIsJoined(s[1..], sep);
      assert rest[0] in rest;
      if s[0] == sep {
        assert ([""] + rest)[1..] == rest;
      } else {
        assert ([[s[0]] + rest[0]] + rest[1..])[1..] == rest[1..];
      }
      assert s == [s[0]] + s[1..];
    }
  }

  /** The parts are the strings without separator that join to s. */
  lemma SplitIff(s: string, sep: char, parts: seq<string>)
    ensures Split(s, sep) == parts
       <==> parts != [] && (forall p :: p in parts ==> sep !in p) && JoinWith(parts, sep) == s
  {
    SplitIsJoined(s, sep);
    if parts != [] && (forall p :: p in parts ==> sep !in p) { JoinedIsSplit(parts, sep); }
  }

  // ---------- The annotation ----------

  /** Conversion of an id to Go's 64-bit uint. */
  function ToUint(id: int): nat {
    id % UINT_LIMIT
  }

  function Join(devIds: seq<nat>): string {
    if devIds == [] then ""
    else if |devIds| == 1 then Decimal(devIds[0])
    else Join(devIds[..|devIds| - 1]) + "," + Decimal(devIds[|devIds| - 1])
  }

  /** The ids in the list, or none if one of the parts is not a number. */
  function ParseAll(parts: seq<string>): Option<seq<int>> {
    if parts == [] then Some([])
    else
      var front, last := ParseAll(parts[..|parts| - 1]), Atoi(parts[|parts| - 1]);
      if front.None? || last.None? then None else Some(front.value + [last.value])
  }

  function GroupIds(group: Option<string>): seq<int> {
    if group.None? then []
    else
      var ids := ParseAll(Split(group.value, ','));
      if ids.None? then [] else ids.value
  }

  function PodIds(pod: Pod): seq<int> {
    GroupIds(pod.group)
  }

  /** `GetGPUIDFromAnnotation` */
  method GetGPUIDFromAnnotation(pod: Pod) returns (ids: seq<int>)
    ensures ids == PodIds(pod)
  {
    ids := [];
    if pod.group.Some? {
      var idList := Split(pod.group.value, ',');
      for i := 0 to |idList|
        invariant ParseAll(idList[..i]) == Some(ids)
      {
        assert idList[..i + 1][..i] == idList[..i];
        var id := Atoi(idList[i]);
        if id.None? {
          ParseFails(idList, i + 1);
          return [];
        }
        ids := ids + [id.value];
      }
      assert idList[..|idList|] == idList;
    }
  }

  lemma {:induction false} ParseFails(parts: seq<string>, i: nat)
    requires i <= |parts| && ParseAll(parts[..i]).None?
    ensures ParseAll(parts).None?
  {
    if i < |parts| {
      var front := parts[..|parts| - 1];
      assert front[..i] == parts[..i];
      ParseFails(front, i);
    } else {
      assert parts[..i] == parts;
    }
  }

  /** `GetUpdatedPodAnnotationSpec`, without the assigned flag and the time stamp. */
  method GetUpdatedPodAnnotationSpec(oldPod: Pod, devIds: seq<nat>) returns (newPod: Pod)
    ensures newPod == oldPod.(group := Some(Join(devIds)))
  {
    var devs := "";
    for i := 0 to |devIds|
      invariant devs == Join(devIds[..i])
    {
      assert devIds[..i + 1][..i] == devIds[..i];
      if i == 0 {
        devs := devs + Decimal(devIds[i]);
      } else {
        devs := devs + "," + Decimal(devIds[i]);
      }
    }
    assert devIds[..|devIds|] == devIds;
    newPod := oldPod.(group := Some(devs));
  }

  lemma {:induction false} ParseAllIff(parts: seq<string>)
    ensures ParseAll(parts).Some? <==> forall i :: 0 <= i < |parts| ==> Atoi(parts[i]).Some?
    ensures ParseAll(parts).Some? ==> |ParseAll(parts).value| == |parts|
    ensures ParseAll(parts).Some? ==>
      forall i :: 0 <= i < |parts| ==> Atoi(parts[i]) == Some(ParseAll(parts).value[i])
  {
    if parts != [] {
      var front := parts[..|parts| - 1];
      ParseAllIff(front);
      assert forall i :: 0 <= i < |front| ==> front[i] == parts[i];
    }
  }

  /** The ids of an annotation are the numbers between its commas; there are none if one of the parts is
      not a number, or without an annotation. */
  lemma IdsOfAnnotation(pod: Pod)
    ensures pod.group.None? ==> PodIds(pod) == []
    ensures pod.group.Some? ==>
      var ids, parts := PodIds(pod), Split(pod.group.value, ',');
      if forall i :: 0 <= i < |parts| ==> Atoi(parts[i]).Some?
      then |ids| == |parts| && forall i :: 0 <= i < |ids| ==> Atoi(parts[i]) == Some(ids[i])
      else ids == []
  {
    if pod.group.Some? { ParseAllIff(Split(pod.group.value, ',')); }
  }

  // ---------- Round trip ----------

  lemma {:induction false} SplitOfJoin(devIds: seq<nat>)
    requires devIds != []
    ensures Split(Join(devIds), ',') == seq(|devIds|, i requires 0 <= i < |devIds| => Decimal(devIds[i]))
  {
    var m := |devIds| - 1;
    var last := Decimal(devIds[m]);
    DecimalRoundTrip(devIds[m]);
    assert ',' !in last;
    if m == 0 {
      SplitOne(last, ',');
    } else {
      var front := devIds[..m];
      SplitOfJoin(front);
      SplitLast(Join(front), ',', last);
    }
  }

  lemma {:induction false} ParseDecimals(devIds: seq<nat>)
    ensures ParseAll(seq(|devIds|, i requires 0 <= i < |devIds| => Decimal(devIds[i])))
         == if forall i :: 0 <= i < |devIds| ==> devIds[i] < INT_LIMIT then Some(devIds) else None
  {
    if devIds != [] {
      var m := |devIds| - 1;
      var parts := seq(|devIds|, i requires 0 <= i < |devIds| => Decimal(devIds[i]));
      assert parts[..m] == seq(m, i requires 0 <= i < m => Decimal(devIds[..m][i]));
      ParseDecimals(devIds[..m]);
      AtoiOfDecimal(devIds[m]);
      assert devIds == devIds[..m] + [devIds[m]];
    }
  }

  /** Reading back what was written gives the same ids exactly if each of them is below 2^63;
      otherwise it gives no ids at all. The empty list is included. */
  lemma GroupRoundTrip(devIds: seq<nat>)
    ensures GroupIds(Some(Join(devIds)))
         == if forall i :: 0 <= i < |devIds| ==> devIds[i] < INT_LIMIT then devIds else []
  {
    if devIds == [] {
      assert Split("", ',') == [""];
      assert ParseAll([""]).None?;
    } else {
      SplitOfJoin(devIds);
      ParseDecimals(devIds);
    }
  }

  function ToUints(ids: seq<int>): seq<nat> {
    seq(|ids|, i requires 0 <= i < |ids| => ToUint(ids[i]))
  }

  lemma ToUintValue(id: int)
    requires -1 <= id < INT_LIMIT
    ensures ToUint(id) == if id == -1 then UINT_LIMIT - 1 else id
  {
  }

  /** The pod with the annotation that an allocation writes. */
  function Annotated(pod: Pod, ids: seq<int>): Pod {
    pod.(group := Some(Join(ToUints(ids))))
  }

  /** The annotation of an allocation that contains padding reads back as no GPUs. */
  lemma AllocationRoundTrip(ids: seq<int>)
    requires forall i :: 0 <= i < |ids| ==> -1 <= ids[i] < INT_LIMIT
    ensures GroupIds(Some(Join(ToUints(ids)))) == if -1 in ids then [] else ids
  {
    var devIds := ToUints(ids);
    forall i | 0 <= i < |ids| ensures devIds[i] == if ids[i] == -1 then UINT_LIMIT - 1 else ids[i] {
      ToUintValue(ids[i]);
    }
    GroupRoundTrip(devIds);
    if -1 in ids {
      var i :| 0 <= i < |ids| && ids[i] == -1;
      assert devIds[i] >= INT_LIMIT;
    } else {
      assert devIds == ids;
    }
  }
}
