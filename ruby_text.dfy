/** The two pieces of Ruby's string library the query layer relies on:
    `String#split` with a one-character separator, which `includes?` uses to
    read the `include` parameter, and `Integer#to_s`, which turns an integer
    `include` value into text before it is split. */
module RubyText {

  /** The raw fields of `s` between occurrences of `sep`, empty ones
      included: one more field than there are separators. */
  function Fields(s: string, sep: char): (r: seq<string>)
    ensures |r| >= 1
    ensures forall k :: 0 <= k < |r| ==> sep !in r[k]
    decreases |s|
  {
    if s == [] then [""]
    else
      var rest := Fields(s[1..], sep);
      if s[0] == sep then [""] + rest
      else [[s[0]] + rest[0]] + rest[1..]
  }

  /** The fields put back together with `sep` between neighbours. */
  function Join(parts: seq<string>, sep: char): string
    decreases |parts|
  {
    if |parts| == 0 then ""
    else if |parts| == 1 then parts[0]
    else parts[0] + [sep] + Join(parts[1..], sep)
  }

  /** Ruby drops the empty fields at the end of a split (and so splits the
      empty string into no fields at all); the inner empty ones stay. */
  function DropTrailingEmpty(parts: seq<string>): (r: seq<string>)
    ensures |r| <= |parts| && r == parts[..|r|]
    ensures r == [] || r[|r| - 1] != ""
    ensures forall k :: |r| <= k < |parts| ==> parts[k] == ""
    decreases |parts|
  {
    if parts == [] then []
    else if parts[|parts| - 1] == "" then DropTrailingEmpty(parts[..|parts| - 1])
    else parts
  }

  /** `s.split(sep)` for a one-character string separator and no limit. */
  function Split(s: string, sep: char): seq<string> {
    DropTrailingEmpty(Fields(s, sep))
  }

  /** Splitting and joining are inverse: the fields of `s` rebuild `s`. */
  lemma {:induction false} JoinFields(s: string, sep: char)
    ensures Join(Fields(s, sep), sep) == s
    decreases |s|
  {
    if s != [] {
      var rest := Fields(s[1..], sep);
      JoinFields(s[1..], sep);
      if s[0] == sep {
        assert Fields(s, sep) == [""] + rest;
        assert ([""] + rest)[1..] == rest;
        assert s == [sep] + s[1..];
      } else {
        var first := [s[0]] + rest[0];
        assert Fields(s, sep) == [first] + rest[1..];
        if |rest| == 1 {
          assert s == [s[0]] + s[1..];
        } else {
          assert ([first] + rest[1..])[1..] == rest[1..];
          assert Join(rest, sep) == rest[0] + [sep] + Join(rest[1..], sep);
          assert s == [s[0]] + s[1..];
        }
      }
    }
  }

  /** Prepending separator-free text `a` to `t` only lengthens the first
      field of `t`. */
  lemma {:induction false} FieldsPrepend(a: string, t: string, sep: char)
    requires sep !in a
    ensures Fields(a + t, sep) == [a + Fields(t, sep)[0]] + Fields(t, sep)[1..]
    decreases |a|
  {
    if a == [] {
      var f := Fields(t, sep);
      assert a + t == t;
      assert a + f[0] == f[0];
      assert f == [f[0]] + f[1..];
    } else {
      assert (a + t)[1..] == a[1..] + t;
      assert (a + t)[0] == a[0];
      FieldsPrepend(a[1..], t, sep);
      var f := Fields(t, sep);
      var rest := Fields(a[1..] + t, sep);
      assert rest[0] == a[1..] + f[0] && rest[1..] == f[1..];
      assert a[0] != sep;
      assert Fields(a + t, sep) == [[a[0]] + rest[0]] + rest[1..];
      assert [a[0]] + (a[1..] + f[0]) == a + f[0];
    }
  }

  /** The other direction of the round trip: joining at least one
      separator-free field and splitting the result gives the fields back. */
  lemma {:induction false} FieldsJoin(parts: seq<string>, sep: char)
    requires |parts| >= 1
    requires forall k :: 0 <= k < |parts| ==> sep !in parts[k]
    ensures Fields(Join(parts, sep), sep) == parts
    decreases |parts|
  {
    if |parts| == 1 {
      FieldsPrepend(parts[0], "", sep);
      assert parts[0] + "" == parts[0];
    } else {
      var tail := Join(parts[1..], sep);
      FieldsJoin(parts[1..], sep);
      FieldsPrepend(parts[0], [sep] + tail, sep);
      assert ([sep] + tail)[1..] == tail;
      assert Fields([sep] + tail, sep) == [""] + parts[1..];
      assert parts[0] + "" == parts[0];
      assert parts[0] + [sep] + tail == parts[0] + ([sep] + tail);
      assert parts == [parts[0]] + parts[1..];
    }
  }

  /** A non-empty key is among the pieces of a Ruby split exactly when it is
      one of the raw fields: only empty fields are dropped. */
  lemma SplitMembership(s: string, sep: char, key: string)
    requires key != ""
    ensures key in Split(s, sep) <==> key in Fields(s, sep)
  {
    var parts := Fields(s, sep);
    var r := Split(s, sep);
    if key in parts {
      var k :| 0 <= k < |parts| && parts[k] == key;
      assert k < |r|;
      assert r[k] == key;
    }
    if key in r {
      var k :| 0 <= k < |r| && r[k] == key;
      assert parts[k] == key;
    }
  }

  /** Some empty field comes before some non-empty one. */
  predicate EmptyBeforeNonEmpty(parts: seq<string>) {
    exists i, j :: 0 <= i < j < |parts| && parts[i] == "" && parts[j] != ""
  }

  /** The empty key is among the pieces exactly when some empty field is
      followed, somewhere later, by a non-empty one (`"a,,b"` but not
      `"a,b,"`). */
  lemma SplitEmptyMember(s: string, sep: char)
    ensures "" in Split(s, sep) <==> EmptyBeforeNonEmpty(Fields(s, sep))
  {
    var parts := Fields(s, sep);
    var r := DropTrailingEmpty(parts);
    assert r == parts[..|r|];
    if "" in r {
      var i :| 0 <= i < |r| && r[i] == "";
      var j := |r| - 1;
      assert parts[i] == "" && parts[j] != "" && i < j;
    }
    if EmptyBeforeNonEmpty(parts) {
      var i, j :| 0 <= i < j < |parts| && parts[i] == "" && parts[j] != "";
      assert j < |r|;
      assert r[i] == parts[i];
    }
  }

  /** A text without separators splits into itself alone, unless it is empty,
      in which case it splits into nothing. */
  lemma SplitWithoutSeparator(s: string, sep: char)
    requires sep !in s
    ensures Split(s, sep) == if s == "" then [] else [s]
  {
    FieldsJoin([s], sep);
  }

  // ---- Integer#to_s ----

  function Digit(d: nat): (c: char)
    requires d < 10
  {
    "0123456789"[d]
  }

  /** The decimal digits of `n`, most significant first, without leading
      zeros. */
  function NatToDigits(n: nat): (r: string)
    ensures |r| >= 1
    ensures forall k :: 0 <= k < |r| ==> '0' <= r[k] <= '9'
    ensures n > 0 ==> r[0] != '0'
    ensures r[0] == '0' ==> r == "0"
    decreases n
  {
    if n < 10 then [Digit(n)] else NatToDigits(n / 10) + [Digit(n % 10)]
  }

  /** Ruby's `Integer#to_s`: a minus sign for negative numbers, then the
      decimal digits of the magnitude. */
  function IntToS(i: int): (r: string)
    ensures |r| >= 1
    ensures forall k :: 0 <= k < |r| ==> ('0' <= r[k] <= '9' || (k == 0 && i < 0 && r[k] == '-'))
    ensures i < 0 ==> r[0] == '-' && |r| >= 2
  {
    if i < 0 then "-" + NatToDigits(-i) else NatToDigits(i)
  }

  /** The number a string of decimal digits denotes. */
  function DecimalValue(s: string): int
    decreases |s|
  {
    if s == [] then 0
    else DecimalValue(s[..|s| - 1]) * 10 + (s[|s| - 1] as int - '0' as int)
  }

  /** Reading the digits back gives the number: `to_s` is decimal. */
  lemma {:induction false} NatToDigitsValue(n: nat)
    ensures DecimalValue(NatToDigits(n)) == n
    decreases n
  {
    if n >= 10 {
      var s := NatToDigits(n / 10);
      NatToDigitsValue(n / 10);
      assert (s + [Digit(n % 10)])[..|s|] == s;
    }
  }

  /** `to_s` of an integer is its decimal numeral, signed when negative and
      without leading zeros. */
  lemma IntToSValue(i: int)
    ensures i >= 0 ==> DecimalValue(IntToS(i)) == i
    ensures i >= 0 ==> (IntToS(i)[0] == '0' ==> IntToS(i) == "0")
    ensures i < 0 ==> |IntToS(i)| >= 2 && IntToS(i)[0] == '-' && IntToS(i)[1] != '0'
    ensures i < 0 ==> DecimalValue(IntToS(i)[1..]) == -i
  {
    if i >= 0 {
      NatToDigitsValue(i);
    } else {
      NatToDigitsValue(-i);
      assert IntToS(i)[1..] == NatToDigits(-i);
    }
  }
}
