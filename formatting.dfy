/**
 * Composite formatting as `String.Format` performs it in .NET Framework 4
 * (the parser of `StringBuilder.AppendFormat`), for string arguments.
 * Outside a format item `{{` and `}}` stand for one brace and any other
 * `}` is an error. A format item is a `{`, an index of decimal digits
 * (leading zeros allowed), optional spaces, an optional alignment (`,`,
 * optional spaces, an optional `-`, decimal digits), optional spaces, an
 * optional format specifier (`:` up to the closing brace, where `{{` and
 * `}}` are escaped braces) and a `}`. Anything else after a `{`, or an
 * index outside the arguments, is an error. A string ignores its format
 * specifier; the alignment pads it with spaces to the width, on the left,
 * or on the right when the width has a `-`. With no arguments at all every
 * format item is an error, which the delete path relies on.
 */
module Formatting {
  import opened Wrappers
  import opened Strings

  /** `System.FormatException`. */
  datatype FormatError = FormatException

  predicate IsDigit(c: Octet)
  {
    '0' <= c <= '9'
  }

  function DigitValue(c: Octet): (v: nat)
    requires IsDigit(c)
    ensures v < 10
  {
    c as int - '0' as int
  }

  /** The parser stops reading the digits of an index or a width once their value reaches this bound. */
  const NumberBound: nat := 1000000

  /**
   * The index or width whose digits start at `i`, with `acc` the value of
   * the digits before `i`: its value and the position after its last
   * digit. Reading stops at a non-digit or at the bound, and the text may
   * not end in the middle of the number.
   */
  function Number(s: Text, i: nat, acc: nat): (r: Option<(nat, nat)>)
    requires i < |s| && IsDigit(s[i])
    ensures r.Some? ==> i < r.value.1 < |s|
    ensures r.Some? ==> forall k :: i <= k < r.value.1 ==> IsDigit(s[k])
    ensures r.Some? ==> !IsDigit(s[r.value.1]) || r.value.0 >= NumberBound
    decreases |s| - i
  {
    var v := acc * 10 + DigitValue(s[i]);
    if i + 1 == |s| then None
    else if IsDigit(s[i + 1]) && v < NumberBound then Number(s, i + 1, v)
    else Some((v, i + 1))
  }

  /** The first position at or after `i` that does not hold a space. */
  function SkipSpaces(s: Text, i: nat): (j: nat)
    requires i <= |s|
    ensures i <= j <= |s|
    ensures forall k :: i <= k < j ==> s[k] == ' '
    ensures j < |s| ==> s[j] != ' '
    decreases |s| - i
  {
    if i < |s| && s[i] == ' ' then SkipSpaces(s, i + 1) else i
  }

  /** The `}` that ends a format specifier starting at `i`; `{{` and `}}` inside it are escaped braces. */
  function SpecifierEnd(s: Text, i: nat): (r: Option<nat>)
    requires i <= |s|
    ensures r.Some? ==> i <= r.value < |s| && s[r.value] == '}'
    decreases |s| - i
  {
    if i == |s| then None
    else if s[i] == '{' then
      if i + 1 < |s| && s[i + 1] == '{' then SpecifierEnd(s, i + 2) else None
    else if s[i] == '}' then
      if i + 1 < |s| && s[i + 1] == '}' then SpecifierEnd(s, i + 2) else Some(i)
    else SpecifierEnd(s, i + 1)
  }

  /** A format item: the argument it names, its alignment, and how many octets follow its `{`, closing `}` included. */
  datatype Item = Item(index: nat, leftAligned: bool, width: nat, length: nat)

  /** The rest of a format item whose index and alignment end at `i`: an optional format specifier and the `}`. */
  function CloseItem(s: Text, index: nat, leftAligned: bool, width: nat, i: nat): (r: Option<Item>)
    requires i <= |s|
    ensures r.Some? ==> r.value == Item(index, leftAligned, width, r.value.length)
    ensures r.Some? ==> i < r.value.length <= |s| && s[r.value.length - 1] == '}'
  {
    if i == |s| then None
    else if s[i] == '}' then Some(Item(index, leftAligned, width, i + 1))
    else if s[i] == ':' then
      match SpecifierEnd(s, i + 1)
      case None => None
      case Some(e) => Some(Item(index, leftAligned, width, e + 1))
    else None
  }

  /** The format item spelled by `s`, the text after a `{` that does not begin `{{`. */
  function ParseItem(s: Text): (r: Option<Item>)
    ensures r.Some? ==> 0 < r.value.length <= |s| && s[r.value.length - 1] == '}'
    ensures |s| > 0 && !IsDigit(s[0]) ==> r.None?
  {
    if |s| == 0 || !IsDigit(s[0]) then None
    else match Number(s, 0, 0)
      case None => None
      case Some((index, i)) =>
        var j := SkipSpaces(s, i);
        if j < |s| && s[j] == ',' then
          var k := SkipSpaces(s, j + 1);
          var leftAligned := k < |s| && s[k] == '-';
          var d := if leftAligned then k + 1 else k;
          if d < |s| && IsDigit(s[d]) then
            match Number(s, d, 0)
            case None => None
            case Some((width, e)) => CloseItem(s, index, leftAligned, width, SkipSpaces(s, e))
          else None
        else CloseItem(s, index, false, 0, j)
  }

  /** `n` spaces. */
  function Spaces(n: nat): (r: Text)
    ensures |r| == n && forall k :: 0 <= k < n ==> r[k] == ' '
  {
    if n == 0 then [] else [' '] + Spaces(n - 1)
  }

  /** An argument in a field of `width` octets: padded with spaces in front, or behind when left-aligned; never cut. */
  function Align(arg: Text, leftAligned: bool, width: nat): (r: Text)
    ensures |r| == if |arg| < width then width else |arg|
    ensures leftAligned ==> r[..|arg|] == arg && forall k :: |arg| <= k < |r| ==> r[k] == ' '
    ensures !leftAligned ==> r[|r| - |arg|..] == arg && forall k :: 0 <= k < |r| - |arg| ==> r[k] == ' '
  {
    var pad := if |arg| < width then width - |arg| else 0;
    if leftAligned then arg + Spaces(pad) else Spaces(pad) + arg
  }

  function Prepend(prefix: Text, r: Result<Text, FormatError>): (p: Result<Text, FormatError>)
    ensures p.Ok? <==> r.Ok?
    ensures p.Ok? ==> p.value == prefix + r.value
  {
    match r
    case Ok(t) => Ok(prefix + t)
    case Err(e) => Err(e)
  }

  /** `String.Format(fmt, args)`: only a brace can make it fail. */
  function Format(fmt: Text, args: seq<Text>): (r: Result<Text, FormatError>)
    ensures r.Err? ==> exists i :: 0 <= i < |fmt| && (fmt[i] == '{' || fmt[i] == '}')
    decreases |fmt|
  {
    if |fmt| == 0 then Ok([])
    else if fmt[0] == '{' then
      if |fmt| >= 2 && fmt[1] == '{' then Prepend("{", Format(fmt[2..], args))
      else match ParseItem(fmt[1..])
        case None => Err(FormatException)
        case Some(item) =>
          if item.index < |args| then
            Prepend(Align(args[item.index], item.leftAligned, item.width), Format(fmt[1 + item.length..], args))
          else Err(FormatException)
    else if fmt[0] == '}' then
      if |fmt| >= 2 && fmt[1] == '}' then Prepend("}", Format(fmt[2..], args))
      else Err(FormatException)
    else Prepend([fmt[0]], Format(fmt[1..], args))
  }

  /** An octet other than a brace is copied. */
  lemma FormatLiteralAtHead(fmt: Text, args: seq<Text>)
    requires |fmt| > 0 && fmt[0] != '{' && fmt[0] != '}'
    ensures Format(fmt, args) == Prepend([fmt[0]], Format(fmt[1..], args))
  {
  }

  /** A doubled brace stands for one brace. */
  lemma FormatEscapeAtHead(fmt: Text, args: seq<Text>)
    requires |fmt| >= 2 && fmt[0] == fmt[1] && (fmt[0] == '{' || fmt[0] == '}')
    ensures Format(fmt, args) == Prepend([fmt[0]], Format(fmt[2..], args))
  {
  }

  /** Any brace that is not doubled fails when there are no arguments. */
  lemma FormatBraceWithoutArguments(fmt: Text)
    requires |fmt| > 0 && (fmt[0] == '{' || fmt[0] == '}') && !(|fmt| >= 2 && fmt[1] == fmt[0])
    ensures Format(fmt, []).Err?
  {
  }

  /** A format item at the head of a format string is replaced by its aligned argument. */
  lemma FormatItemAtHead(fmt: Text, args: seq<Text>)
    requires |fmt| >= 2 && fmt[0] == '{' && fmt[1] != '{'
    requires ParseItem(fmt[1..]).Some? && ParseItem(fmt[1..]).value.index < |args|
    ensures var item := ParseItem(fmt[1..]).value;
      Format(fmt, args) == Prepend(Align(args[item.index], item.leftAligned, item.width), Format(fmt[1 + item.length..], args))
  {
  }

  /** Skipping over a known run of `k` spaces. */
  lemma {:induction false} SkipSpacesOver(s: Text, i: nat, k: nat)
    requires i + k <= |s| && forall j :: i <= j < i + k ==> s[j] == ' '
    requires i + k < |s| ==> s[i + k] != ' '
    ensures SkipSpaces(s, i) == i + k
    decreases k
  {
    if k > 0 {
      SkipSpacesOver(s, i + 1, k - 1);
    }
  }

  /** The item text `d}` with `k` spaces between the one-digit index and the `}`. */
  lemma ParseSpacedItem(s: Text, k: nat)
    requires 2 + k <= |s| && IsDigit(s[0]) && s[1 + k] == '}'
    requires forall j :: 1 <= j < 1 + k ==> s[j] == ' '
    ensures ParseItem(s) == Some(Item(DigitValue(s[0]), false, 0, 2 + k))
  {
    assert !IsDigit(s[1]);
    assert Number(s, 0, 0) == Some((DigitValue(s[0]), 1));
    SkipSpacesOver(s, 1, k);
    assert CloseItem(s, DigitValue(s[0]), false, 0, 1 + k) == Some(Item(DigitValue(s[0]), false, 0, 2 + k));
  }

  /** The octets after the `{` of `{d}` with `k` spaces before the `}`. */
  lemma SpacedItemText(c: Octet, k: nat, rest: Text)
    ensures var s := (['{', c] + Spaces(k) + ['}'] + rest)[1..];
      && |s| >= 2 + k && s[0] == c && s[1 + k] == '}'
      && (forall j :: 1 <= j < 1 + k ==> s[j] == ' ')
      && s[2 + k..] == rest
  {
    var s := (['{', c] + Spaces(k) + ['}'] + rest)[1..];
    assert s == [c] + Spaces(k) + ['}'] + rest;
    assert forall j :: 1 <= j < 1 + k ==> s[j] == Spaces(k)[j - 1];
  }

  /** A `{d}` item, with any number of spaces after its one-digit index, is replaced by argument `d`. */
  lemma FormatItem(c: Octet, k: nat, rest: Text, args: seq<Text>)
    requires IsDigit(c) && DigitValue(c) < |args|
    ensures Format(['{', c] + Spaces(k) + ['}'] + rest, args) == Prepend(args[DigitValue(c)], Format(rest, args))
  {
    var fmt: Text := ['{', c] + Spaces(k) + ['}'] + rest;
    SpacedItemText(c, k, rest);
    ParseSpacedItem(fmt[1..], k);
    FormatItemAtHead(fmt, args);
    assert Align(args[DigitValue(c)], false, 0) == args[DigitValue(c)] by {
      assert Spaces(0) + args[DigitValue(c)] == args[DigitValue(c)];
    }
    assert fmt[1 + (2 + k)..] == fmt[1..][2 + k..];
  }

  /**
   * The `{` of a format item must be followed by a digit; a `{` followed
   * by anything else but a second `{`, after brace-free text, fails.
   */
  lemma LoneBraceFails(p: Text, c: Octet, q: Text, args: seq<Text>)
    requires NoBraces(p) && c != '{' && !IsDigit(c)
    ensures Format(p + ['{', c] + q, args).Err?
  {
    var t: Text := ['{', c] + q;
    assert p + ['{', c] + q == p + t;
    FormatBraceFreePrefix(p, t, args);
    assert t[1..][0] == c;
    assert ParseItem(t[1..]).None?;
  }

  /** A brace-free prefix of a format string is copied literally. */
  lemma {:induction false} FormatBraceFreePrefix(p: Text, q: Text, args: seq<Text>)
    requires NoBraces(p)
    ensures Format(p + q, args) == Prepend(p, Format(q, args))
    decreases |p|
  {
    if |p| > 0 {
      assert (p + q)[0] == p[0];
      assert (p + q)[1..] == p[1..] + q;
      assert p[0] != '{' && p[0] != '}';
      assert NoBraces(p[1..]);
      FormatLiteralAtHead(p + q, args);
      FormatBraceFreePrefix(p[1..], q, args);
      if Format(q, args).Ok? {
        assert [p[0]] + (p[1..] + Format(q, args).value) == p + Format(q, args).value;
      }
    } else {
      assert p + q == q;
      if Format(q, args).Ok? {
        assert p + Format(q, args).value == Format(q, args).value;
      }
    }
  }

  /** A brace-free string formats to itself, whatever the arguments. */
  lemma FormatBraceFree(s: Text, args: seq<Text>)
    requires NoBraces(s)
    ensures Format(s, args) == Ok(s)
  {
    FormatBraceFreePrefix(s, [], args);
    assert s + [] == s;
  }

  /** Without arguments, formatting never lengthens its input, and keeps the length only when there is no brace. */
  lemma {:induction false} FormatWithoutArgumentsLength(s: Text)
    requires Format(s, []).Ok?
    ensures |Format(s, []).value| <= |s|
    ensures |Format(s, []).value| == |s| ==> NoBraces(s)
    decreases |s|
  {
    if |s| > 0 {
      if s[0] == '{' || s[0] == '}' {
        if !(|s| >= 2 && s[1] == s[0]) {
          FormatBraceWithoutArguments(s);
        }
        FormatEscapeAtHead(s, []);
        FormatWithoutArgumentsLength(s[2..]);
      } else {
        FormatLiteralAtHead(s, []);
        FormatWithoutArgumentsLength(s[1..]);
        if |Format(s, []).value| == |s| {
          assert NoBraces(s[1..]);
          forall i | 0 <= i < |s| ensures s[i] != '{' && s[i] != '}' {
            if i > 0 { assert s[i] == s[1..][i - 1]; }
          }
        }
      }
    }
  }

  /** With no arguments a string formats to itself exactly when it holds no brace. */
  lemma FormatWithoutArgumentsIdentity(s: Text)
    ensures Format(s, []) == Ok(s) <==> NoBraces(s)
  {
    if NoBraces(s) {
      FormatBraceFree(s, []);
    } else if Format(s, []).Ok? {
      FormatWithoutArgumentsLength(s);
    }
  }

  /** A leading zero in a two-digit index names the same argument as the digit alone. */
  lemma FormatItemWithLeadingZero(c: Octet, rest: Text, args: seq<Text>)
    requires IsDigit(c) && DigitValue(c) < |args|
    ensures Format(['{', '0', c, '}'] + rest, args) == Prepend(args[DigitValue(c)], Format(rest, args))
  {
    var fmt: Text := ['{', '0', c, '}'] + rest;
    var s := fmt[1..];
    assert s == ['0', c, '}'] + rest;
    assert Number(s, 1, 0) == Some((DigitValue(c), 2));
    assert Number(s, 0, 0) == Some((DigitValue(c), 2));
    SkipSpacesOver(s, 2, 0);
    assert ParseItem(s) == Some(Item(DigitValue(c), false, 0, 3));
    FormatItemAtHead(fmt, args);
    assert Align(args[DigitValue(c)], false, 0) == args[DigitValue(c)] by {
      assert Spaces(0) + args[DigitValue(c)] == args[DigitValue(c)];
    }
    assert fmt[1 + 3..] == rest;
  }

  /** `{c,w}` and `{c,-w}` with one-digit width `w`: the argument aligned right, or left, in a field of `w` octets. */
  lemma FormatAlignedItem(c: Octet, leftAligned: bool, w: Octet, rest: Text, args: seq<Text>)
    requires IsDigit(c) && DigitValue(c) < |args| && IsDigit(w)
    ensures var sign: Text := if leftAligned then "-" else "";
      Format(['{', c, ','] + sign + [w, '}'] + rest, args)
        == Prepend(Align(args[DigitValue(c)], leftAligned, DigitValue(w)), Format(rest, args))
  {
    var sign: Text := if leftAligned then "-" else "";
    var fmt: Text := ['{', c, ','] + sign + [w, '}'] + rest;
    var s := fmt[1..];
    var n := |sign|;
    assert s == [c, ','] + sign + [w, '}'] + rest;
    assert s[0] == c && s[1] == ',' && s[2 + n] == w && s[3 + n] == '}';
    assert n == 1 <==> leftAligned;
    assert n == 1 ==> s[2] == '-';
    assert n == 0 ==> s[2] == w;
    ParseAlignedItem(s, n);
    FormatItemAtHead(fmt, args);
    assert fmt[1 + (4 + n)..] == rest;
  }

  /** The item text `d,w}` or `d,-w}`, with `n` the length of the sign. */
  lemma ParseAlignedItem(s: Text, n: nat)
    requires n <= 1 && 4 + n <= |s| && IsDigit(s[0]) && s[1] == ','
    requires n == 1 ==> s[2] == '-'
    requires IsDigit(s[2 + n]) && s[3 + n] == '}'
    ensures ParseItem(s) == Some(Item(DigitValue(s[0]), n == 1, DigitValue(s[2 + n]), 4 + n))
  {
    assert Number(s, 0, 0) == Some((DigitValue(s[0]), 1));
    SkipSpacesOver(s, 1, 0);
    SkipSpacesOver(s, 2, 0);
    assert Number(s, 2 + n, 0) == Some((DigitValue(s[2 + n]), 3 + n));
    SkipSpacesOver(s, 3 + n, 0);
    assert CloseItem(s, DigitValue(s[0]), n == 1, DigitValue(s[2 + n]), 3 + n)
      == Some(Item(DigitValue(s[0]), n == 1, DigitValue(s[2 + n]), 4 + n));
  }

  /** A format specifier closes at the first `}` after brace-free text. */
  lemma {:induction false} SpecifierEndOver(s: Text, i: nat, n: nat)
    requires i + n < |s| && s[i + n] == '}' && (i + n + 1 < |s| ==> s[i + n + 1] != '}')
    requires forall j :: i <= j < i + n ==> s[j] != '{' && s[j] != '}'
    ensures SpecifierEnd(s, i) == Some(i + n)
    decreases n
  {
    if n > 0 {
      SpecifierEndOver(s, i + 1, n - 1);
    }
  }

  /**
   * `{c:spec}` with a brace-free specifier, not followed by another `}`
   * (which would make `}}` an escaped brace inside the specifier): a string
   * argument ignores the specifier.
   */
  lemma FormatSpecifiedItem(c: Octet, spec: Text, rest: Text, args: seq<Text>)
    requires IsDigit(c) && DigitValue(c) < |args| && NoBraces(spec) && (|rest| == 0 || rest[0] != '}')
    ensures Format(['{', c, ':'] + spec + ['}'] + rest, args) == Prepend(args[DigitValue(c)], Format(rest, args))
  {
    var fmt: Text := ['{', c, ':'] + spec + ['}'] + rest;
    var s := fmt[1..];
    var n := |spec|;
    assert s == [c, ':'] + spec + ['}'] + rest;
    assert s[0] == c && s[1] == ':' && s[2 + n] == '}';
    assert 3 + n < |s| ==> s[3 + n] == rest[0];
    assert forall j :: 2 <= j < 2 + n ==> s[j] != '{' && s[j] != '}' by {
      forall j | 2 <= j < 2 + n ensures s[j] != '{' && s[j] != '}' {
        assert s[j] == spec[j - 2];
      }
    }
    ParseSpecifiedItem(s, n);
    FormatItemAtHead(fmt, args);
    assert Align(args[DigitValue(c)], false, 0) == args[DigitValue(c)] by {
      assert Spaces(0) + args[DigitValue(c)] == args[DigitValue(c)];
    }
    assert fmt[1 + (3 + n)..] == rest;
  }

  /** The item text `c:spec}` for a specifier of `n` brace-free octets. */
  lemma ParseSpecifiedItem(s: Text, n: nat)
    requires 3 + n <= |s| && IsDigit(s[0]) && s[1] == ':' && s[2 + n] == '}'
    requires 3 + n < |s| ==> s[3 + n] != '}'
    requires forall j :: 2 <= j < 2 + n ==> s[j] != '{' && s[j] != '}'
    ensures ParseItem(s) == Some(Item(DigitValue(s[0]), false, 0, 3 + n))
  {
    assert Number(s, 0, 0) == Some((DigitValue(s[0]), 1));
    SkipSpacesOver(s, 1, 0);
    SpecifierEndOver(s, 2, n);
    assert CloseItem(s, DigitValue(s[0]), false, 0, 1) == Some(Item(DigitValue(s[0]), false, 0, 3 + n));
  }

  /**
   * An item `{d}` with a one-digit index, and any spaces before its `}`,
   * fails when `d` is not below the number of arguments.
   */
  lemma ItemBeyondArgumentsFails(c: Octet, k: nat, rest: Text, args: seq<Text>)
    requires IsDigit(c) && DigitValue(c) >= |args|
    ensures Format(['{', c] + Spaces(k) + ['}'] + rest, args).Err?
  {
    var fmt: Text := ['{', c] + Spaces(k) + ['}'] + rest;
    SpacedItemText(c, k, rest);
    ParseSpacedItem(fmt[1..], k);
    FormatItemBeyondArguments(fmt, args);
  }

  /**
   * Every item, whatever its index digits, spaces, alignment or specifier,
   * fails when its index is not below the number of arguments.
   */
  lemma FormatItemBeyondArguments(fmt: Text, args: seq<Text>)
    requires |fmt| >= 2 && fmt[0] == '{' && fmt[1] != '{'
    requires ParseItem(fmt[1..]).Some? && ParseItem(fmt[1..]).value.index >= |args|
    ensures Format(fmt, args).Err?
  {
  }

  /** A `}` that is not doubled, after brace-free text, fails. */
  lemma StrayCloseFails(p: Text, q: Text, args: seq<Text>)
    requires NoBraces(p) && (|q| == 0 || q[0] != '}')
    ensures Format(p + ['}'] + q, args).Err?
  {
    var t: Text := ['}'] + q;
    assert p + ['}'] + q == p + t;
    FormatBraceFreePrefix(p, t, args);
  }
}
