/**
  The two Java library calls the command handlers rely on, restated as
  functions: Integer.parseInt (decimal, 32-bit) and String.split(" ").
 */
module JavaLang {
  import opened Wrappers

  const IntMin: int := -0x8000_0000
  const IntMax: int := 0x7fff_ffff

  predicate IsDigit(c: char) { '0' <= c <= '9' }

  predicate AllDigits(s: string) { forall i :: 0 <= i < |s| ==> IsDigit(s[i]) }

  /** The value of a string of decimal digits, most significant first. */
  function DigitsValue(s: string): nat
    requires AllDigits(s)
  {
    if s == [] then 0 else DigitsValue(s[..|s| - 1]) * 10 + (s[|s| - 1] as int - '0' as int)
  }

  /**
    Integer.parseInt(s): an optional '-' or '+', then at least one decimal
    digit; the value must fit a Java int. None stands for the
    NumberFormatException the callers catch.
   */
  function ParseInt(s: string): (r: Option<int>)
    ensures r.Some? ==> IntMin <= r.value <= IntMax
    ensures r.Some? ==> exists k :: 0 <= k < |s| && IsDigit(s[k])
  {
    if |s| == 0 then None
    else
      var digits := if s[0] == '-' || s[0] == '+' then s[1..] else s;
      if |digits| == 0 || !AllDigits(digits) then None
      else
        var v: int := if s[0] == '-' then -(DigitsValue(digits) as int) else DigitsValue(digits);
        assert IsDigit(s[|s| - 1]);
        if IntMin <= v <= IntMax then Some(v) else None
  }

  /** The decimal text of n, the partner of ParseInt. */
  function Show(n: nat): (s: string)
    ensures |s| > 0 && AllDigits(s)
  {
    var d := ['0' + (n % 10) as char];
    if n < 10 then d else Show(n / 10) + d
  }

  lemma {:induction false} ShowValue(n: nat)
    ensures DigitsValue(Show(n)) == n
  {
    if n >= 10 {
      var s := Show(n);
      ShowValue(n / 10);
      assert s[..|s| - 1] == Show(n / 10);
    }
  }

  /** Parsing the decimal text of any Java int gives that int back. */
  lemma ParseShow(n: int)
    requires IntMin <= n <= IntMax
    ensures n >= 0 ==> ParseInt(Show(n)) == Some(n)
    ensures n < 0 ==> ParseInt("-" + Show(-n)) == Some(n)
  {
    if n >= 0 {
      ShowValue(n);
    } else {
      ShowValue(-n);
      assert ("-" + Show(-n))[1..] == Show(-n);
    }
  }

  /** The pieces of s between single spaces, empty pieces included. */
  function Fields(s: string): (r: seq<string>)
    ensures |r| >= 1
    ensures forall i :: 0 <= i < |r| ==> ' ' !in r[i]
  {
    if s == [] then [""]
    else
      var rest := Fields(s[1..]);
      if s[0] == ' ' then [""] + rest else [[s[0]] + rest[0]] + rest[1..]
  }

  /** The pieces joined back with single spaces. */
  function Join(fs: seq<string>): string
    requires |fs| >= 1
  {
    if |fs| == 1 then fs[0] else fs[0] + " " + Join(fs[1..])
  }

  /** Joining the fields of s gives s back. */
  lemma {:induction false} JoinFields(s: string)
    ensures Join(Fields(s)) == s
  {
    if s != [] {
      var rest := Fields(s[1..]);
      JoinFields(s[1..]);
      if s[0] != ' ' {
        var r := Fields(s);
        assert r[0] == [s[0]] + rest[0] && r[1..] == rest[1..];
        if |rest| > 1 {
          assert Join(rest) == rest[0] + " " + Join(rest[1..]);
        }
      }
    }
  }

  /** fs without its trailing empty strings. */
  function DropTrailingEmpty(fs: seq<string>): (r: seq<string>)
    ensures r <= fs
    ensures r == [] || r[|r| - 1] != ""
    ensures forall i :: |r| <= i < |fs| ==> fs[i] == ""
  {
    if fs == [] || fs[|fs| - 1] != "" then fs else DropTrailingEmpty(fs[..|fs| - 1])
  }

  /**
    String.split(" ") with its default limit: a string without a space is
    returned whole (even when empty); otherwise the fields between spaces,
    trailing empty fields removed.
   */
  function Split(s: string): (r: seq<string>)
    ensures forall i :: 0 <= i < |r| ==> ' ' !in r[i]
    ensures ' ' !in s ==> r == [s]
    ensures ' ' in s ==> r == [] || r[|r| - 1] != ""
  {
    if ' ' !in s then [s] else DropTrailingEmpty(Fields(s))
  }

  lemma {:induction false} FieldsOfWord(w: string, tail: string)
    requires ' ' !in w
    ensures Fields(w + " " + tail) == [w] + Fields(tail)
  {
    if w != [] {
      assert (w + " " + tail)[1..] == w[1..] + " " + tail;
      FieldsOfWord(w[1..], tail);
      assert [w[0]] + w[1..] == w;
    } else {
      assert (w + " " + tail)[1..] == tail;
    }
  }

  /** A kind token and a colour token, space-separated, split back into the two. */
  lemma SplitPair(kind: string, color: string)
    requires ' ' !in kind && ' ' !in color && color != ""
    ensures Split(kind + " " + color) == [kind, color]
  {
    FieldsOfWord(kind, color);
    assert Fields(color) == [color] by {
      NoSpaceField(color);
    }
    assert ' ' in kind + " " + color by {
      assert (kind + " " + color)[|kind|] == ' ';
    }
  }

  lemma {:induction false} NoSpaceField(w: string)
    requires ' ' !in w
    ensures Fields(w) == [w]
  {
    if w != [] {
      NoSpaceField(w[1..]);
      assert [w[0]] + w[1..] == w;
    }
  }
}
