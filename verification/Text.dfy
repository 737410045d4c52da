/** The string operations of Go's strings, strconv and fmt packages that the broker's text
    formats are built from. A char stands for one byte. */
module Text {
  datatype Option<+T> = None | Some(value: T)

  function Max(a: int, b: int): int {
    if a < b then b else a
  }

  /** The concatenation of f's results over xs. */
  function FlatMap<A, B>(f: A -> seq<B>, xs: seq<A>): seq<B> {
    if xs == [] then [] else f(xs[0]) + FlatMap(f, xs[1..])
  }

  lemma {:induction false} FlatMapConcat<A, B>(f: A -> seq<B>, xs: seq<A>, ys: seq<A>)
    ensures FlatMap(f, xs + ys) == FlatMap(f, xs) + FlatMap(f, ys)
  {
    if xs == [] {
      assert xs + ys == ys;
    } else {
      var all, rest := xs + ys, xs[1..];
      FlatMapConcat(f, rest, ys);
      assert all[0] == xs[0] && all[1..] == rest + ys;
      ConcatAssociative(f(xs[0]), FlatMap(f, rest), FlatMap(f, ys));
    }
  }

  lemma {:induction false} FlatMapForall<A, B>(f: A -> seq<B>, xs: seq<A>, p: B -> bool)
    requires forall x, y :: x in xs && y in f(x) ==> p(y)
    ensures forall y :: y in FlatMap(f, xs) ==> p(y)
  {
    if xs == [] {
    } else {
      FlatMapForall(f, xs[1..], p);
    }
  }

  /** s is what is left of t after dropping a front. The two cases keep a sequence from being
      described as a slice of itself. */
  ghost predicate IsSuffix<A>(s: seq<A>, t: seq<A>) {
    s == t || (|s| < |t| && s == t[|t| - |s|..])
  }

  lemma SuffixTransitive<A>(s: seq<A>, t: seq<A>, u: seq<A>)
    requires IsSuffix(s, t) && IsSuffix(t, u)
    ensures IsSuffix(s, u)
    ensures forall x :: x in s ==> x in t
  {
  }

  lemma UpdateTwice<K, V>(m: map<K, V>, k: K, v: V, w: V)
    ensures m[k := v][k := w] == m[k := w]
  {
  }

  lemma ConcatAssociative<A>(xs: seq<A>, ys: seq<A>, zs: seq<A>)
    ensures xs + ys + zs == xs + (ys + zs)
  {
  }

  lemma CancelPrefix<A>(xs: seq<A>, ys: seq<A>, zs: seq<A>)
    ensures xs + ys == xs + zs <==> ys == zs
  {
    if xs + ys == xs + zs {
      assert ys == (xs + ys)[|xs|..] == (xs + zs)[|xs|..] == zs;
    }
  }

  // ---- Searching ----

  predicate OccursAt(s: string, t: string, i: int) {
    0 <= i && i + |t| <= |s| && s[i..i + |t|] == t
  }

  /** strings.Index: the first occurrence of t in s, or -1. */
  function Index(s: string, t: string): (i: int)
    ensures -1 <= i <= |s|
    ensures i >= 0 ==> OccursAt(s, t, i)
    ensures forall j :: 0 <= j && (i < 0 || j < i) ==> !OccursAt(s, t, j)
  {
    if OccursAt(s, t, 0) then 0
    else if s == "" then -1
    else
      var r := Index(s[1..], t);
      assert forall j :: 0 < j ==> (OccursAt(s, t, j) <==> OccursAt(s[1..], t, j - 1));
      if r < 0 then -1 else r + 1
  }

  predicate Contains(s: string, t: string) {
    Index(s, t) >= 0
  }

  /** strings.LastIndex for a one-byte needle. */
  function LastIndex(s: string, c: char): (i: int)
    ensures -1 <= i < |s|
    ensures i >= 0 ==> s[i] == c
    ensures forall j :: i < j < |s| ==> s[j] != c
  {
    if s == "" then -1
    else if s[|s| - 1] == c then |s| - 1
    else LastIndex(s[..|s| - 1], c)
  }

  lemma IndexIs(s: string, t: string, i: int)
    requires OccursAt(s, t, i) && forall j :: 0 <= j < i ==> !OccursAt(s, t, j)
    ensures Index(s, t) == i
  {
  }

  lemma IndexOfChar(s: string, c: char)
    ensures Index(s, [c]) < 0 <==> c !in s
    ensures Index(s, [c]) >= 0 ==> s[Index(s, [c])] == c && c !in s[..Index(s, [c])]
  {
    forall j | 0 <= j < |s|
      ensures s[j] == c <==> OccursAt(s, [c], j)
    {
      assert s[j..j + 1] == [s[j]];
    }
  }

  /** A separator that no earlier position matches is found where it was written. */
  lemma IndexOfSeparator(a: string, c: char, b: string)
    requires c !in a
    ensures Index(a + [c] + b, [c]) == |a|
  {
    var s := a + [c] + b;
    IndexOfChar(s, c);
    assert s[|a|] == c;
    assert s[..|a|] == a;
  }

  // ---- Splitting and joining ----

  /** strings.Split. */
  function Split(s: string, sep: string): (parts: seq<string>)
    requires sep != ""
    ensures parts != []
    decreases |s|
  {
    var i := Index(s, sep);
    if i < 0 then [s] else [s[..i]] + Split(s[i + |sep|..], sep)
  }

  /** strings.SplitN with a positive count. */
  function SplitN(s: string, sep: string, n: nat): (parts: seq<string>)
    requires sep != "" && n > 0
    ensures 1 <= |parts| <= n
    decreases n
  {
    var i := Index(s, sep);
    if n == 1 || i < 0 then [s] else [s[..i]] + SplitN(s[i + |sep|..], sep, n - 1)
  }

  /** strings.Join. */
  function Join(parts: seq<string>, sep: string): string {
    if |parts| == 0 then ""
    else if |parts| == 1 then parts[0]
    else parts[0] + sep + Join(parts[1..], sep)
  }

  lemma {:induction false} SplitPiecesLackSeparator(s: string, c: char)
    ensures forall k :: 0 <= k < |Split(s, [c])| ==> c !in Split(s, [c])[k]
    ensures forall k :: 0 <= k < |Split(s, [c])| ==> forall x :: x in Split(s, [c])[k] ==> x in s
    decreases |s|
  {
    IndexOfChar(s, c);
    var i := Index(s, [c]);
    if i >= 0 {
      SplitPiecesLackSeparator(s[i + 1..], c);
    }
  }

  lemma JoinCons(head: string, tail: seq<string>, sep: string)
    requires tail != []
    ensures Join([head] + tail, sep) == head + sep + Join(tail, sep)
  {
    assert ([head] + tail)[1..] == tail;
  }

  lemma CutAt(s: string, sep: string, i: nat, head: string, rest: string)
    requires OccursAt(s, sep, i) && head == s[..i] && rest == s[i + |sep|..]
    ensures head + sep + rest == s
  {
  }

  lemma {:induction false} JoinSplit(s: string, sep: string)
    requires sep != ""
    ensures Join(Split(s, sep), sep) == s
    decreases |s|
  {
    var i := Index(s, sep);
    if i >= 0 {
      var head, rest := s[..i], s[i + |sep|..];
      JoinSplit(rest, sep);
      JoinCons(head, Split(rest, sep), sep);
      CutAt(s, sep, i, head, rest);
    }
  }

  lemma SplitHead(a: string, c: char, b: string)
    requires c !in a
    ensures Split(a + [c] + b, [c]) == [a] + Split(b, [c])
  {
    IndexOfSeparator(a, c, b);
    var s := a + [c] + b;
    assert s[..|a|] == a && s[|a| + 1..] == b;
  }

  lemma SplitNHead(a: string, c: char, b: string, n: nat)
    requires c !in a && n > 1
    ensures SplitN(a + [c] + b, [c], n) == [a] + SplitN(b, [c], n - 1)
  {
    IndexOfSeparator(a, c, b);
    var s := a + [c] + b;
    assert s[..|a|] == a && s[|a| + 1..] == b;
  }

  lemma SplitAtom(a: string, c: char)
    requires c !in a
    ensures Split(a, [c]) == [a]
  {
    IndexOfChar(a, c);
  }

  /** Splitting distributes over a written separator, whatever the two sides contain. */
  lemma {:induction false} SplitConcat(a: string, c: char, b: string)
    ensures Split(a + [c] + b, [c]) == Split(a, [c]) + Split(b, [c])
    decreases |a|
  {
    IndexOfChar(a, c);
    var i := Index(a, [c]);
    if i < 0 {
      SplitHead(a, c, b);
    } else {
      var head, tail := a[..i], a[i + 1..];
      assert a == head + [c] + tail;
      SplitConcat(tail, c, b);
      SplitPrefixed(head, c, tail, b);
    }
  }

  lemma SplitPrefixed(head: string, c: char, tail: string, b: string)
    requires c !in head && Split(tail + [c] + b, [c]) == Split(tail, [c]) + Split(b, [c])
    ensures Split(head + [c] + tail + [c] + b, [c]) == Split(head + [c] + tail, [c]) + Split(b, [c])
  {
    var rest := tail + [c] + b;
    assert head + [c] + tail + [c] + b == head + [c] + rest;
    SplitHead(head, c, rest);
    SplitHead(head, c, tail);
    ConcatAssociative([head], Split(tail, [c]), Split(b, [c]));
  }

  // ---- Trimming ----

  predicate IsSpace(c: char) {
    c == ' ' || c == '\t' || c == '\n' || c == '\r' || c == 11 as char || c == 12 as char
  }

  ghost predicate NoSpace(s: string) {
    forall i :: 0 <= i < |s| ==> !IsSpace(s[i])
  }

  /** strings.TrimSpace. */
  function TrimSpace(s: string): string
    decreases |s|
  {
    if s != "" && IsSpace(s[0]) then TrimSpace(s[1..])
    else if s != "" && IsSpace(s[|s| - 1]) then TrimSpace(s[..|s| - 1])
    else s
  }

  // ---- Numbers ----

  predicate IsDigit(c: char) {
    '0' <= c <= '9'
  }

  function DigitChar(d: int): (c: char)
    requires 0 <= d < 10
    ensures IsDigit(c) && DigitValue(c) == d
  {
    (d + 48) as char
  }

  function DigitValue(c: char): (d: int)
    requires IsDigit(c)
    ensures 0 <= d < 10
  {
    c as int - 48
  }

  ghost predicate AllDigits(s: string) {
    forall i :: 0 <= i < |s| ==> IsDigit(s[i])
  }

  /** The decimal digits of n. */
  function Digits(n: nat): (s: string)
    ensures s != "" && AllDigits(s)
  {
    if n < 10 then [DigitChar(n)] else Digits(n / 10) + [DigitChar(n % 10)]
  }

  /** fmt's %d. */
  function Itoa(n: int): (s: string)
    ensures s != ""
    ensures forall i :: 0 <= i < |s| ==> IsDigit(s[i]) || (i == 0 && s[i] == '-')
  {
    if n < 0 then "-" + Digits(-n) else Digits(n)
  }

  /** fmt's %0<width>d for a number that is not negative. */
  function PadZeros(s: string, width: nat): (r: string)
    requires AllDigits(s)
    ensures AllDigits(r) && |r| >= |s| && |r| >= width
    decreases width - |s|
  {
    if |s| >= width then s else PadZeros("0" + s, width)
  }

  function DigitsOf(s: string): (r: Option<int>)
    ensures r.Some? ==> r.value >= 0
  {
    if s == "" then Some(0)
    else if !IsDigit(s[|s| - 1]) then None
    else match DigitsOf(s[..|s| - 1])
      case None => None
      case Some(n) => Some(10 * n + DigitValue(s[|s| - 1]))
  }

  /** strconv.Atoi and strconv.ParseInt base 10: an optional sign and at least one digit. */
  function Atoi(s: string): Option<int> {
    if s == "" then None
    else if s[0] == '-' || s[0] == '+' then
      if |s| == 1 then None
      else match DigitsOf(s[1..])
        case None => None
        case Some(n) => Some(if s[0] == '-' then -n else n)
    else match DigitsOf(s)
      case None => None
      case Some(n) => Some(n)
  }

  lemma {:induction false} DigitsRoundTrip(n: nat)
    ensures DigitsOf(Digits(n)) == Some(n)
  {
    if n < 10 {
      var s := [DigitChar(n)];
      assert s[..|s| - 1] == "";
    } else {
      DigitsRoundTrip(n / 10);
      var s := Digits(n);
      assert s[..|s| - 1] == Digits(n / 10) && s[|s| - 1] == DigitChar(n % 10);
    }
  }

  lemma {:induction false} LeadingZero(s: string)
    ensures DigitsOf("0" + s) == DigitsOf(s)
  {
    var t := "0" + s;
    if s == "" {
      assert t[..|t| - 1] == "";
    } else {
      assert t[..|t| - 1] == "0" + s[..|s| - 1];
      assert t[|t| - 1] == s[|s| - 1];
      LeadingZero(s[..|s| - 1]);
    }
  }

  lemma {:induction false} PaddingRoundTrip(s: string, width: nat)
    requires AllDigits(s)
    ensures DigitsOf(PadZeros(s, width)) == DigitsOf(s)
    decreases width - |s|
  {
    if |s| < width {
      LeadingZero(s);
      PaddingRoundTrip("0" + s, width);
    }
  }

  /** Printing a number and parsing it back gives the number. */
  lemma AtoiItoa(n: int)
    ensures Atoi(Itoa(n)) == Some(n)
  {
    if n < 0 {
      var digits := Digits(-n);
      DigitsRoundTrip(-n);
      assert Itoa(n) == "-" + digits;
      assert ("-" + digits)[1..] == digits;
    } else {
      DigitsRoundTrip(n);
      assert IsDigit(Digits(n)[0]);
    }
  }

  lemma ItoaLacks(n: int, c: char)
    requires !IsDigit(c) && c != '-'
    ensures c !in Itoa(n)
  {
  }

  lemma AtoiPadded(n: nat, width: nat)
    ensures Atoi(PadZeros(Digits(n), width)) == Some(n)
  {
    DigitsRoundTrip(n);
    PaddingRoundTrip(Digits(n), width);
    assert IsDigit(PadZeros(Digits(n), width)[0]);
  }

  // ---- Checksums ----

  function Xor(a: nat, b: nat): nat {
    if a == 0 then b
    else if b == 0 then a
    else 2 * Xor(a / 2, b / 2) + (if a % 2 == b % 2 then 0 else 1)
  }

  function CrcBits(crc: nat, bits: nat): nat
    decreases bits
  {
    if bits == 0 then crc
    else CrcBits(if crc % 2 == 1 then Xor(crc / 2, 0xEDB88320) else crc / 2, bits - 1)
  }

  function CrcBytes(crc: nat, s: string): nat
    decreases |s|
  {
    if s == "" then crc
    else CrcBytes(CrcBits(Xor(crc, s[0] as int % 256), 8), s[1..])
  }

  /** hash/crc32's ChecksumIEEE. */
  function Crc32(s: string): nat {
    Xor(CrcBytes(0xFFFFFFFF, s), 0xFFFFFFFF)
  }

  predicate IsHex(c: char) {
    IsDigit(c) || 'a' <= c <= 'f'
  }

  /** The low digits of n in base 16; Hex(n, 8) is fmt's %08x of a 32-bit number. */
  function Hex(n: nat, width: nat): (s: string)
    ensures |s| == width
    ensures forall i :: 0 <= i < |s| ==> IsHex(s[i])
    decreases width
  {
    if width == 0 then ""
    else Hex(n / 16, width - 1) + [if n % 16 < 10 then DigitChar(n % 16) else (n % 16 + 87) as char]
  }

  function Lower(c: char): char {
    if 'A' <= c <= 'Z' then (c as int + 32) as char else c
  }

  /** strings.EqualFold on one-byte characters. */
  predicate EqualFold(a: string, b: string) {
    |a| == |b| && forall i :: 0 <= i < |a| ==> Lower(a[i]) == Lower(b[i])
  }
}
