/**
 * Text as the uploader manipulates it. A .NET string is modelled by the
 * sequence of octets of its UTF-8 form, one `Octet` per octet; the
 * string operations the uploader uses (Contains, EndsWith, Replace, Join,
 * Substring) are modelled as ordinal operations over such sequences.
 */
module Strings {

  type Octet = c: char | c as int < 0x100

  type Text = seq<Octet>

  /** `t` occurs in `s` starting at index `i`. */
  predicate OccursAt(s: Text, t: Text, i: int)
  {
    0 <= i && i + |t| <= |s| && s[i..i + |t|] == t
  }

  /** Ordinal `String.Contains`: `t` occurs somewhere in `s`. */
  function Contains(s: Text, t: Text): (b: bool)
    ensures b <==> exists i :: OccursAt(s, t, i)
    decreases |s|
  {
    if |s| < |t| then
      assert forall i :: !OccursAt(s, t, i);
      false
    else if s[..|t|] == t then
      assert OccursAt(s, t, 0);
      true
    else
      var rest := Contains(s[1..], t);
      assert forall i :: OccursAt(s, t, i) <==> i > 0 && OccursAt(s[1..], t, i - 1) by {
        forall i ensures OccursAt(s, t, i) <==> i > 0 && OccursAt(s[1..], t, i - 1) {
          if 0 < i && i + |t| <= |s| {
            assert forall k :: i <= k < i + |t| ==> s[1..][k - 1] == s[k];
            assert s[i..i + |t|] == s[1..][i - 1..i - 1 + |t|];
          }
        }
      }
      assert rest ==> exists i :: OccursAt(s, t, i) by {
        if rest {
          var j :| OccursAt(s[1..], t, j);
          assert OccursAt(s, t, j + 1);
        }
      }
      rest
  }

  /** `String.EndsWith` for a one-octet suffix, modelled as ordinal. */
  predicate EndsWith(s: Text, c: Octet)
  {
    |s| > 0 && s[|s| - 1] == c
  }

  /** No `{` and no `}`: a text that `String.Format` copies literally. */
  predicate NoBraces(s: Text)
  {
    forall i :: 0 <= i < |s| ==> s[i] != '{' && s[i] != '}'
  }

  /** `String.Join(sep, xs)`: the items with `sep` between neighbours. */
  function Join(sep: Text, xs: seq<Text>): Text
    decreases |xs|
  {
    if |xs| == 0 then []
    else if |xs| == 1 then xs[0]
    else xs[0] + sep + Join(sep, xs[1..])
  }

  /** Joining one more item at the end adds the separator and the item. */
  lemma {:induction false} JoinSnoc(sep: Text, xs: seq<Text>, x: Text)
    requires |xs| > 0
    ensures Join(sep, xs + [x]) == Join(sep, xs) + sep + x
    decreases |xs|
  {
    if |xs| == 1 {
      assert xs + [x] == [xs[0], x];
      assert [xs[0], x][1..] == [x];
    } else {
      assert (xs + [x])[1..] == xs[1..] + [x];
      JoinSnoc(sep, xs[1..], x);
    }
  }

  /** The same with every item, the first included, preceded by the separator. */
  lemma SeparatedJoinSnoc(sep: Text, xs: seq<Text>, x: Text)
    requires |xs| > 0
    ensures sep + Join(sep, xs + [x]) == sep + Join(sep, xs) + sep + x
  {
    JoinSnoc(sep, xs, x);
  }

  /** Index of the first occurrence of `c` in `s`. */
  function IndexOf(s: Text, c: Octet): (i: nat)
    requires c in s
    ensures i < |s| && s[i] == c && c !in s[..i]
  {
    if s[0] == c then 0 else 1 + IndexOf(s[1..], c)
  }

  /** Splitting at every `sep`, as `String.Split(sep)` does. */
  function Split(s: Text, sep: Octet): (r: seq<Text>)
    ensures |r| > 0
    decreases |s|
  {
    if sep !in s then [s]
    else
      var i := IndexOf(s, sep);
      [s[..i]] + Split(s[i + 1..], sep)
  }

  /** Splitting a join undoes it when no item holds the separator. */
  lemma {:induction false} SplitJoin(xs: seq<Text>, sep: Octet)
    requires |xs| > 0
    requires forall k :: 0 <= k < |xs| ==> sep !in xs[k]
    ensures Split(Join([sep], xs), sep) == xs
    decreases |xs|
  {
    if |xs| > 1 {
      assert forall k :: 0 <= k < |xs[1..]| ==> xs[1..][k] == xs[k + 1];
      SplitJoin(xs[1..], sep);
      SplitJoinStep(xs, sep);
    }
  }

  lemma SplitJoinStep(xs: seq<Text>, sep: Octet)
    requires |xs| > 1 && sep !in xs[0]
    requires Split(Join([sep], xs[1..]), sep) == xs[1..]
    ensures Split(Join([sep], xs), sep) == xs
  {
    assert Join([sep], xs) == xs[0] + [sep] + Join([sep], xs[1..]);
    SplitAtFirst(xs[0], sep, Join([sep], xs[1..]));
    assert [xs[0]] + xs[1..] == xs;
  }

  /** A split ends its first part at the first separator. */
  lemma {:induction false} SplitAtFirst(a: Text, sep: Octet, rest: Text)
    requires sep !in a
    ensures Split(a + [sep] + rest, sep) == [a] + Split(rest, sep)
  {
    var s := a + [sep] + rest;
    assert s[|a|] == sep;
    IndexOfAfter(a, sep, rest);
    assert s[..|a|] == a;
    assert s[|a| + 1..] == rest;
  }

  lemma {:induction false} IndexOfAfter(a: Text, sep: Octet, rest: Text)
    requires sep !in a
    ensures sep in a + [sep] + rest && IndexOf(a + [sep] + rest, sep) == |a|
    decreases |a|
  {
    var s := a + [sep] + rest;
    assert s[|a|] == sep;
    if |a| > 0 {
      assert s[1..] == a[1..] + [sep] + rest;
      IndexOfAfter(a[1..], sep, rest);
    }
  }

  /** Joining texts that avoid an octet, with a separator that avoids it, gives a text that avoids it. */
  lemma {:induction false} JoinAvoids(sep: Text, xs: seq<Text>, c: Octet)
    requires c !in sep && forall k :: 0 <= k < |xs| ==> c !in xs[k]
    ensures c !in Join(sep, xs)
    decreases |xs|
  {
    if |xs| > 1 {
      JoinAvoids(sep, xs[1..], c);
      assert Join(sep, xs) == xs[0] + sep + Join(sep, xs[1..]);
    }
  }

  /** Three texts that avoid the separator come back from a split of their join. */
  lemma SplitThree(a: Text, b: Text, c: Text, sep: Octet)
    requires sep !in a && sep !in b && sep !in c
    ensures Split(a + [sep] + b + [sep] + c, sep) == [a, b, c]
  {
    var xs := [a, b, c];
    assert xs[1..] == [b, c] && xs[1..][1..] == [c];
    assert Join([sep], [c]) == c;
    assert Join([sep], [b, c]) == b + [sep] + c;
    assert Join([sep], xs) == a + [sep] + (b + [sep] + c);
    assert a + [sep] + (b + [sep] + c) == a + [sep] + b + [sep] + c;
    SplitJoin(xs, sep);
  }

  /** Ordinal `String.Replace` of one octet by a text. */
  function ReplaceOctet(s: Text, c: Octet, replacement: Text): (r: Text)
    ensures c !in replacement ==> c !in r
  {
    if |s| == 0 then []
    else (if s[0] == c then replacement else [s[0]]) + ReplaceOctet(s[1..], c, replacement)
  }

  /** Invariant ASCII upper-casing, as `ToUpper` acts on ASCII text. */
  function ToUpperAscii(s: Text): (r: Text)
    ensures |r| == |s|
    ensures forall i :: 0 <= i < |s| ==> r[i] == if 'a' <= s[i] <= 'z' then (s[i] as int - 32) as char else s[i]
  {
    if |s| == 0 then []
    else [if 'a' <= s[0] <= 'z' then (s[0] as int - 32) as char else s[0]] + ToUpperAscii(s[1..])
  }
}
