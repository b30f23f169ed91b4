/**
 * The JavaScript string built-ins the thali functions rely on, restricted to
 * what the model needs: ASCII `toUpperCase`/`toLowerCase`, `Array.prototype.join`,
 * `String.prototype.includes`, the decimal rendering of a non-negative integer,
 * and `Number.prototype.toFixed(2)` applied to a price held as an integer
 * number of paise (hundredths of a rupee). Each rendering comes with the
 * parser that reads it back.
 */
module Strings {
  import opened Wrappers

  // ---------------------------------------------------------------------------
  // Digits and decimal numbers
  // ---------------------------------------------------------------------------

  predicate IsDigit(c: char) {
    '0' <= c <= '9'
  }

  predicate AllDigits(s: string) {
    forall i :: 0 <= i < |s| ==> IsDigit(s[i])
  }

  function DigitChar(d: nat): (c: char)
    requires d < 10
    ensures IsDigit(c)
  {
    ('0' as int + d) as char
  }

  function DigitValue(c: char): (d: nat)
    requires IsDigit(c)
    ensures d < 10
  {
    c as int - '0' as int
  }

  /** `String(n)` for a non-negative integer: its decimal digits, most significant first. */
  function NatToString(n: nat): (s: string)
    ensures |s| > 0 && AllDigits(s)
    decreases n
  {
    if n < 10 then [DigitChar(n)] else NatToString(n / 10) + [DigitChar(n % 10)]
  }

  /** The value of a string of decimal digits (the empty string reads as 0). */
  function ParseNat(s: string): nat
    requires AllDigits(s)
    decreases |s|
  {
    if s == [] then 0 else ParseNat(s[..|s| - 1]) * 10 + DigitValue(s[|s| - 1])
  }

  /** Reading back a rendered natural number gives the number. */
  lemma {:induction false} ParseNatToString(n: nat)
    ensures ParseNat(NatToString(n)) == n
  {
    var s := NatToString(n);
    if n < 10 {
      assert s[..|s| - 1] == [];
    } else {
      ParseNatToString(n / 10);
      assert s[..|s| - 1] == NatToString(n / 10);
    }
  }

  // ---------------------------------------------------------------------------
  // toFixed(2) on paise
  // ---------------------------------------------------------------------------

  /** Rupees and two decimals of a non-negative amount of paise: 25000 is "250.00". */
  function Fixed2Magnitude(n: nat): string {
    NatToString(n / 100) + "." + [DigitChar(n / 10 % 10), DigitChar(n % 10)]
  }

  /**
   * `(p / 100).toFixed(2)` for an amount of `p` paise: a minus sign for a
   * negative amount, then the rupees, a point and exactly two decimals.
   */
  function ToFixed2(p: int): (s: string)
    ensures |s| >= 4
    ensures forall i :: 0 <= i < |s| ==> IsDigit(s[i]) || s[i] == '.' || s[i] == '-'
  {
    if p < 0 then "-" + Fixed2Magnitude(-p) else Fixed2Magnitude(p)
  }

  function ParseFixed2Magnitude(s: string): Option<nat> {
    if |s| >= 4 && s[|s| - 3] == '.' && AllDigits(s[..|s| - 3]) && IsDigit(s[|s| - 2]) && IsDigit(s[|s| - 1])
    then Some(ParseNat(s[..|s| - 3]) * 100 + DigitValue(s[|s| - 2]) * 10 + DigitValue(s[|s| - 1]))
    else None
  }

  /** Reads an amount written as `ToFixed2` writes it, back into paise. */
  function ParseFixed2(s: string): Option<int> {
    if |s| > 0 && s[0] == '-' then
      match ParseFixed2Magnitude(s[1..])
      case Some(n) => var v: int := n; Some(-v)
      case None => None
    else
      ParseFixed2Magnitude(s)
  }

  lemma ParseFixed2MagnitudeOf(n: nat)
    ensures ParseFixed2Magnitude(Fixed2Magnitude(n)) == Some(n)
  {
    var s := Fixed2Magnitude(n);
    var whole := NatToString(n / 100);
    assert s[..|s| - 3] == whole;
    ParseNatToString(n / 100);
    var tens, units := n / 10 % 10, n % 10;
    assert n == n / 100 * 100 + tens * 10 + units;
  }

  /** Reading back a price rendered to two decimals gives the price. */
  lemma ParseToFixed2(p: int)
    ensures ParseFixed2(ToFixed2(p)) == Some(p)
  {
    if p < 0 {
      ParseFixed2MagnitudeOf(-p);
      assert ToFixed2(p)[1..] == Fixed2Magnitude(-p);
    } else {
      ParseFixed2MagnitudeOf(p);
      assert ToFixed2(p)[0] == NatToString(p / 100)[0];
    }
  }

  // ---------------------------------------------------------------------------
  // ASCII case mapping
  // ---------------------------------------------------------------------------

  function UpperChar(c: char): char {
    if 'a' <= c <= 'z' then (c as int - 32) as char else c
  }

  function LowerChar(c: char): char {
    if 'A' <= c <= 'Z' then (c as int + 32) as char else c
  }

  /** `s.toUpperCase()` on ASCII: every letter a-z becomes A-Z, everything else stays. */
  function Upper(s: string): string {
    seq(|s|, i requires 0 <= i < |s| => UpperChar(s[i]))
  }

  /** `s.toLowerCase()` on ASCII: every letter A-Z becomes a-z, everything else stays. */
  function Lower(s: string): string {
    seq(|s|, i requires 0 <= i < |s| => LowerChar(s[i]))
  }

  /** Upper-casing first does not change what lower-casing gives. */
  lemma LowerOfUpper(s: string)
    ensures Lower(Upper(s)) == Lower(s)
  {
    assert forall i :: 0 <= i < |s| ==> Lower(Upper(s))[i] == Lower(s)[i];
  }

  /** Lower-casing a slice is slicing the lower-cased string. */
  lemma LowerSlice(s: string, i: nat, j: nat)
    requires i <= j <= |s|
    ensures Lower(s[i..j]) == Lower(s)[i..j]
  {
    assert forall k :: 0 <= k < j - i ==> Lower(s[i..j])[k] == Lower(s)[i..j][k];
  }

  // ---------------------------------------------------------------------------
  // join
  // ---------------------------------------------------------------------------

  /** `items.join(sep)`: the items in order, with `sep` between neighbours; `[]` joins to "". */
  function Join(items: seq<string>, sep: string): string
    decreases |items|
  {
    if |items| == 0 then ""
    else if |items| == 1 then items[0]
    else items[0] + sep + Join(items[1..], sep)
  }

  /** The parts one after another, accumulated from the left one part at a time. */
  function Concat(parts: seq<string>): string
    decreases |parts|
  {
    if parts == [] then "" else Concat(parts[..|parts| - 1]) + parts[|parts| - 1]
  }

  lemma ConcatSnoc(parts: seq<string>, part: string)
    ensures Concat(parts + [part]) == Concat(parts) + part
  {
    assert (parts + [part])[..|parts|] == parts;
  }

  /** Concatenating two lists of parts concatenates their texts. */
  lemma {:induction false} ConcatAppend(a: seq<string>, b: seq<string>)
    ensures Concat(a + b) == Concat(a) + Concat(b)
    decreases |b|
  {
    if b == [] {
      assert a + b == a;
    } else {
      var init := b[..|b| - 1];
      ConcatAppend(a, init);
      assert (a + b)[..|a + b| - 1] == a + init;
    }
  }

  lemma SplitAround<T>(s: seq<T>, k: nat)
    requires k < |s|
    ensures s == s[..k] + [s[k]] + s[k + 1..]
  {
  }

  /** Part `k` sits between the text of the parts before it and the text of the parts after it. */
  lemma ConcatSplit(parts: seq<string>, k: nat)
    requires k < |parts|
    ensures Concat(parts) == Concat(parts[..k]) + parts[k] + Concat(parts[k + 1..])
  {
    var pre, part, post := parts[..k], parts[k], parts[k + 1..];
    var upTo := pre + [part];
    SplitAround(parts, k);
    ConcatAppend(upTo, post);
    ConcatSnoc(pre, part);
    calc {
      Concat(parts);
      Concat(upTo) + Concat(post);
      Concat(pre) + part + Concat(post);
    }
  }

  // ---------------------------------------------------------------------------
  // includes
  // ---------------------------------------------------------------------------

  /** `t` occurs in `s` starting at index `i`. */
  predicate OccursAt(s: string, t: string, i: nat) {
    i + |t| <= |s| && s[i..i + |t|] == t
  }

  /** `s.includes(t)`: scanning `s` from the left for a position where `t` starts. */
  predicate Includes(s: string, t: string)
    decreases |s|
  {
    t <= s || (|s| > 0 && Includes(s[1..], t))
  }

  /** The scan finds `t` exactly when `t` occurs somewhere in `s`. */
  lemma {:induction false} IncludesIff(s: string, t: string)
    ensures Includes(s, t) <==> exists i :: 0 <= i <= |s| && OccursAt(s, t, i)
  {
    if t <= s {
      assert OccursAt(s, t, 0);
    } else if |s| == 0 {
      assert forall i :: 0 <= i <= |s| && OccursAt(s, t, i) ==> i == 0 && t <= s;
    } else {
      IncludesIff(s[1..], t);
      if Includes(s[1..], t) {
        var i :| 0 <= i <= |s[1..]| && OccursAt(s[1..], t, i);
        assert s[i + 1..i + 1 + |t|] == s[1..][i..i + |t|];
        assert OccursAt(s, t, i + 1);
      } else {
        forall i | 0 <= i <= |s| && OccursAt(s, t, i)
          ensures false
        {
          if i > 0 {
            assert s[1..][i - 1..i - 1 + |t|] == s[i..i + |t|];
            assert OccursAt(s[1..], t, i - 1);
          }
        }
      }
    }
  }

  /** A string inside a string inside `s` is inside `s`. */
  lemma IncludesTransitive(s: string, t: string, u: string)
    requires Includes(s, t) && Includes(t, u)
    ensures Includes(s, u)
  {
    IncludesIff(s, t);
    IncludesIff(t, u);
    var i :| 0 <= i <= |s| && OccursAt(s, t, i);
    var j :| 0 <= j <= |t| && OccursAt(t, u, j);
    forall k | 0 <= k < |u|
      ensures s[i + j + k] == u[k]
    {
      assert u[k] == t[j..j + |u|][k] == t[j + k];
      assert t[j + k] == s[i..i + |t|][j + k];
    }
    assert s[i + j..i + j + |u|] == u;
    assert OccursAt(s, u, i + j);
    IncludesIff(s, u);
  }

  /** Anything inside the middle part of a concatenation is inside the whole. */
  lemma IncludesMiddle(a: string, b: string, c: string, t: string)
    requires Includes(b, t)
    ensures Includes(a + b + c, t)
  {
    IncludesIff(b, t);
    var j :| 0 <= j <= |b| && OccursAt(b, t, j);
    var s := a + b + c;
    assert s[|a| + j..|a| + j + |t|] == b[j..j + |t|];
    assert OccursAt(s, t, |a| + j);
    IncludesIff(s, t);
  }

  /** Lower-casing both sides keeps an occurrence. */
  lemma IncludesLower(s: string, t: string)
    requires Includes(s, t)
    ensures Includes(Lower(s), Lower(t))
  {
    IncludesIff(s, t);
    var i :| 0 <= i <= |s| && OccursAt(s, t, i);
    LowerSlice(s, i, i + |t|);
    assert OccursAt(Lower(s), Lower(t), i);
    IncludesIff(Lower(s), Lower(t));
  }

  /** Every item is inside the joined string. */
  lemma {:induction false} JoinIncludesItem(items: seq<string>, sep: string, k: nat)
    requires k < |items|
    ensures Includes(Join(items, sep), items[k])
  {
    IncludesIff(items[k], items[k]);
    assert OccursAt(items[k], items[k], 0);
    if |items| == 1 {
    } else if k == 0 {
      IncludesMiddle([], items[0], sep + Join(items[1..], sep), items[0]);
      assert [] + items[0] + (sep + Join(items[1..], sep)) == Join(items, sep);
    } else {
      JoinIncludesItem(items[1..], sep, k - 1);
      IncludesMiddle(items[0] + sep, Join(items[1..], sep), [], items[k]);
      assert (items[0] + sep) + Join(items[1..], sep) + [] == Join(items, sep);
    }
  }

  // ---------------------------------------------------------------------------
  // Reading rendered text back
  // ---------------------------------------------------------------------------

  function AfterLastFrom(s: string, mark: string, k: nat): Option<string>
    requires k <= |s|
    decreases k
  {
    if k < |mark| then None
    else if s[k - |mark|..k] == mark then Some(s[k..])
    else AfterLastFrom(s, mark, k - 1)
  }

  /** The text that follows the last occurrence of `mark` in `s`, if `mark` occurs. */
  function AfterLast(s: string, mark: string): Option<string> {
    AfterLastFrom(s, mark, |s|)
  }

  /** The first character of `mark` occurs neither in the rest of `mark` nor in `tail`. */
  predicate FirstCharFresh(mark: string, tail: string) {
    |mark| > 0
      && (forall i :: 1 <= i < |mark| ==> mark[i] != mark[0])
      && (forall i :: 0 <= i < |tail| ==> tail[i] != mark[0])
  }

  lemma {:induction false} AfterLastFromOf(pre: string, mark: string, tail: string, k: nat)
    requires FirstCharFresh(mark, tail)
    requires |pre| + |mark| <= k <= |pre + mark + tail|
    ensures AfterLastFrom(pre + mark + tail, mark, k) == Some(tail)
    decreases k
  {
    var s := pre + mark + tail;
    if k == |pre| + |mark| {
      assert s[k - |mark|..k] == mark;
      assert s[k..] == tail;
    } else {
      var j := k - |mark|;
      if j < |pre| + |mark| {
        assert s[j] == mark[j - |pre|];
      } else {
        assert s[j] == tail[j - |pre| - |mark|];
      }
      assert s[j..k][0] != mark[0];
      AfterLastFromOf(pre, mark, tail, k - 1);
    }
  }

  /**
   * When the first character of `mark` occurs neither in the rest of `mark`
   * nor in `tail`, the text after the last `mark` of `pre + mark + tail` is `tail`,
   * whatever `pre` holds.
   */
  lemma AfterLastOf(pre: string, mark: string, tail: string)
    requires FirstCharFresh(mark, tail)
    ensures AfterLast(pre + mark + tail, mark) == Some(tail)
  {
    AfterLastFromOf(pre, mark, tail, |pre + mark + tail|);
  }

  /** The text before the first `c` in `s` (all of `s` when there is none). */
  function UpTo(s: string, c: char): string
    decreases |s|
  {
    if s == [] || s[0] == c then [] else [s[0]] + UpTo(s[1..], c)
  }

  lemma {:induction false} UpToOf(a: string, c: char, b: string)
    requires c !in a
    ensures UpTo(a + [c] + b, c) == a
    decreases |a|
  {
    if a != [] {
      UpToOf(a[1..], c, b);
      assert (a + [c] + b)[1..] == a[1..] + [c] + b;
    }
  }
}
