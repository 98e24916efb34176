/**
 * String helpers with the semantics of the Python built-ins the application
 * relies on: `str.strip()`, `str.lower()`, `sub in s`, `s.split(",")`,
 * `sep.join(items)` and the lexicographic `<` on strings.
 */
module Text {
  import opened Common

  /** Python's `str.isspace()` code points, the set `str.strip()` removes. */
  predicate IsSpace(c: char) {
    || ('\t' <= c <= '\r')                    // tab, line feed, vertical tab, form feed, carriage return
    || ('\U{1C}' <= c <= '\U{1F}')           // file, group, record and unit separators
    || c == ' ' || c == '\U{85}' || c == '\U{A0}' || c == '\U{1680}'
    || ('\U{2000}' <= c <= '\U{200A}')
    || c == '\U{2028}' || c == '\U{2029}' || c == '\U{202F}' || c == '\U{205F}' || c == '\U{3000}'
  }

  /** Removes leading whitespace. */
  function TrimStart(s: string): (r: string)
    ensures |r| <= |s| && r == s[|s| - |r|..]
    ensures forall k :: 0 <= k < |s| - |r| ==> IsSpace(s[k])
    ensures r == [] || !IsSpace(r[0])
  {
    if |s| > 0 && IsSpace(s[0]) then TrimStart(s[1..]) else s
  }

  /** Removes trailing whitespace. */
  function TrimEnd(s: string): (r: string)
    ensures |r| <= |s| && r == s[..|r|]
    ensures forall k :: |r| <= k < |s| ==> IsSpace(s[k])
    ensures r == [] || !IsSpace(r[|r| - 1])
  {
    if |s| > 0 && IsSpace(s[|s| - 1]) then TrimEnd(s[..|s| - 1]) else s
  }

  /** A string with no whitespace at either end. */
  predicate Trimmed(s: string) {
    s == [] || (!IsSpace(s[0]) && !IsSpace(s[|s| - 1]))
  }

  /** `r` is the infix of `s` at `i`, with only whitespace around it. */
  predicate CutAt(s: string, r: string, i: int) {
    && 0 <= i <= |s| - |r|
    && r == s[i..i + |r|]
    && (forall k :: 0 <= k < i ==> IsSpace(s[k]))
    && (forall k :: i + |r| <= k < |s| ==> IsSpace(s[k]))
  }

  /**
   * Python's `s.strip()`: the result is an infix of `s`, everything cut off
   * around it is whitespace, and it has no whitespace left at either end.
   */
  function Strip(s: string): (r: string)
    ensures Trimmed(r)
    ensures |r| <= |s|
  {
    TrimEnd(TrimStart(s))
  }

  lemma StripCut(s: string)
    ensures exists i :: CutAt(s, Strip(s), i)
  {
    var t := TrimStart(s);
    assert CutAt(s, Strip(s), |s| - |t|);
  }

  lemma StripTrimmed(s: string)
    requires Trimmed(s)
    ensures Strip(s) == s
  {
  }

  /** Every character of `Strip(s)` is a character of `s`. */
  lemma StripChars(s: string, c: char)
    requires c in Strip(s)
    ensures c in s
  {
    var t := TrimStart(s);
    var r := TrimEnd(t);
    var k :| 0 <= k < |r| && r[k] == c;
    assert t[k] == c;
    assert s[|s| - |t| + k] == c;
  }

  lemma StripKeepsOut(s: string, c: char)
    ensures c !in s ==> c !in Strip(s)
  {
    if c in Strip(s) {
      StripChars(s, c);
    }
  }

  lemma StripAfterSpace(s: string)
    ensures Strip(" " + s) == Strip(s)
  {
    assert (" " + s)[1..] == s;
  }

  /** Python's `str.lower()` on the ASCII letters. */
  function LowerChar(c: char): char {
    if 'A' <= c <= 'Z' then (c as int + 32) as char else c
  }

  /**
   * Python's `str.lower()` on the ASCII letters: each upper-case letter
   * becomes its lower-case partner, every other character is kept.
   */
  function Lower(s: string): (r: string)
    ensures |r| == |s|
    ensures forall k :: 0 <= k < |s| && !('A' <= s[k] <= 'Z') ==> r[k] == s[k]
    ensures forall k :: 0 <= k < |s| && 'A' <= s[k] <= 'Z' ==> 'a' <= r[k] <= 'z' && r[k] as int - s[k] as int == 'a' as int - 'A' as int
  {
    seq(|s|, i requires 0 <= i < |s| => LowerChar(s[i]))
  }

  /** No ASCII upper-case letter. */
  predicate LowerCase(s: string) {
    forall k :: 0 <= k < |s| ==> !('A' <= s[k] <= 'Z')
  }

  /** Lower-casing leaves whitespace alone, so a trimmed string stays trimmed. */
  lemma LowerTrimmed(s: string)
    requires Trimmed(s)
    ensures Trimmed(Lower(s)) && LowerCase(Lower(s))
  {
  }

  /**
   * `_normalize` in scheduler.py: `(value or "").strip().lower()`. The result
   * has no whitespace at either end and no upper-case letter; `None` and the
   * empty string both give the empty string.
   */
  function Normalize(value: Option<string>): (r: string)
    ensures Trimmed(r) && LowerCase(r)
    ensures |r| <= |value.GetOr("")|
    ensures value.None? ==> r == ""
  {
    LowerTrimmed(Strip(value.GetOr("")));
    Lower(Strip(value.GetOr("")))
  }

  /** Normalizing twice is normalizing once. */
  lemma NormalizeIdempotent(value: Option<string>)
    ensures Normalize(Some(Normalize(value))) == Normalize(value)
  {
    var n := Normalize(value);
    StripTrimmed(n);
    assert Lower(n) == n;
  }

  /** Exactly the trimmed strings without upper-case letters are left as they are. */
  lemma NormalizeFixes(s: string)
    requires Trimmed(s) && LowerCase(s)
    ensures Normalize(Some(s)) == s
  {
    StripTrimmed(s);
    assert Lower(s) == s;
  }

  lemma LowerTwice(s: string)
    ensures Lower(Lower(s)) == Lower(s)
  {
  }

  lemma LowerSpace(c: char)
    ensures IsSpace(LowerChar(c)) == IsSpace(c)
  {
  }

  lemma {:induction false} TrimStartLower(s: string)
    ensures TrimStart(Lower(s)) == Lower(TrimStart(s))
  {
    if |s| > 0 {
      assert Lower(s)[1..] == Lower(s[1..]);
      assert Lower(s)[0] == LowerChar(s[0]);
      LowerSpace(s[0]);
      if IsSpace(s[0]) {
        TrimStartLower(s[1..]);
      }
    }
  }

  lemma {:induction false} TrimEndLower(s: string)
    ensures TrimEnd(Lower(s)) == Lower(TrimEnd(s))
  {
    if |s| > 0 {
      assert Lower(s)[..|s| - 1] == Lower(s[..|s| - 1]);
      assert Lower(s)[|s| - 1] == LowerChar(s[|s| - 1]);
      LowerSpace(s[|s| - 1]);
      if IsSpace(s[|s| - 1]) {
        TrimEndLower(s[..|s| - 1]);
      }
    }
  }

  /** `_normalize` ignores case: lower-casing first changes nothing. */
  lemma NormalizeInsensitive(s: string)
    ensures Normalize(Some(Lower(s))) == Normalize(Some(s))
  {
    TrimStartLower(s);
    TrimEndLower(TrimStart(s));
    LowerTwice(Strip(s));
  }

  /** Only whitespace. */
  predicate AllSpace(s: string) {
    forall k :: 0 <= k < |s| ==> IsSpace(s[k])
  }

  lemma {:induction false} TrimStartPadding(pre: string, s: string)
    requires AllSpace(pre)
    ensures TrimStart(pre + s) == TrimStart(s)
  {
    if |pre| > 0 {
      assert (pre + s)[1..] == pre[1..] + s;
      TrimStartPadding(pre[1..], s);
    } else {
      assert pre + s == s;
    }
  }

  lemma {:induction false} TrimEndPadding(s: string, post: string)
    requires AllSpace(post)
    ensures TrimEnd(s + post) == TrimEnd(s)
  {
    if |post| > 0 {
      assert (s + post)[..|s + post| - 1] == s + post[..|post| - 1];
      TrimEndPadding(s, post[..|post| - 1]);
    } else {
      assert s + post == s;
    }
  }

  lemma {:induction false} TrimStartAppend(s: string, post: string)
    requires AllSpace(post)
    ensures TrimStart(s + post) == if TrimStart(s) == [] then [] else TrimStart(s) + post
  {
    if |s| == 0 {
      assert s + post == [] + post;
      TrimStartPadding(post, []);
      assert post + [] == post;
    } else if IsSpace(s[0]) {
      assert (s + post)[1..] == s[1..] + post;
      TrimStartAppend(s[1..], post);
    }
  }

  /**
   * `_normalize` ignores whitespace around the value: padding on either side
   * changes nothing.
   */
  lemma NormalizePadded(pre: string, s: string, post: string)
    requires AllSpace(pre) && AllSpace(post)
    ensures Normalize(Some(pre + s + post)) == Normalize(Some(s))
  {
    assert pre + s + post == pre + (s + post);
    TrimStartPadding(pre, s + post);
    TrimStartAppend(s, post);
    if TrimStart(s) != [] {
      TrimEndPadding(TrimStart(s), post);
    }
  }

  /** `sub` occurs in `s` starting at position `i`. */
  predicate OccursAt(s: string, sub: string, i: int) {
    0 <= i && i + |sub| <= |s| && s[i..i + |sub|] == sub
  }

  /** Python's `sub in s`: a left-to-right search for `sub`. */
  function Contains(s: string, sub: string): bool {
    if |sub| <= |s| && s[..|sub|] == sub then true
    else if |s| == 0 then false
    else Contains(s[1..], sub)
  }

  /** The search finds `sub` exactly when it occurs somewhere in `s`. */
  lemma {:induction false} ContainsOccurs(s: string, sub: string)
    ensures Contains(s, sub) <==> exists i :: OccursAt(s, sub, i)
  {
    if |sub| <= |s| && s[..|sub|] == sub {
      assert OccursAt(s, sub, 0);
    } else if |s| > 0 {
      ContainsOccurs(s[1..], sub);
      forall i | OccursAt(s[1..], sub, i)
        ensures OccursAt(s, sub, i + 1)
      {
        assert s[1..][i..i + |sub|] == s[i + 1..i + 1 + |sub|];
      }
      forall i | OccursAt(s, sub, i) && i > 0
        ensures OccursAt(s[1..], sub, i - 1)
      {
        assert s[1..][i - 1..i - 1 + |sub|] == s[i..i + |sub|];
      }
    }
  }

  /** `sep.join(items)`. */
  function Join(items: seq<string>, sep: string): string {
    if |items| == 0 then ""
    else if |items| == 1 then items[0]
    else items[0] + sep + Join(items[1..], sep)
  }

  /**
   * Python's `s.split(sep)` for a one-character separator: the fields between
   * consecutive separators, always at least one; splitting is undone by
   * joining with the same separator.
   */
  function Split(s: string, sep: char): (r: seq<string>)
    ensures |r| >= 1
    ensures forall k :: 0 <= k < |r| ==> sep !in r[k]
    ensures Join(r, [sep]) == s
  {
    if |s| == 0 then [""]
    else
      var rest := Split(s[1..], sep);
      if s[0] == sep then
        assert s == [sep] + s[1..];
        [""] + rest
      else
        var r := [[s[0]] + rest[0]] + rest[1..];
        assert |rest| > 1 ==> rest == [rest[0]] + rest[1..];
        assert r[1..] == rest[1..];
        assert s == [s[0]] + s[1..];
        r
  }

  /** Splitting a field followed by a separator peels that field off. */
  lemma {:induction false} SplitField(field: string, sep: char, rest: string)
    requires sep !in field
    ensures Split(field + [sep] + rest, sep) == [field] + Split(rest, sep)
  {
    if |field| == 0 {
      assert field + [sep] + rest == [sep] + rest;
      assert ([sep] + rest)[1..] == rest;
    } else {
      var s := field + [sep] + rest;
      assert s[1..] == field[1..] + [sep] + rest;
      SplitField(field[1..], sep, rest);
      assert [field[0]] + field[1..] == field;
    }
  }

  /** Joining separator-free fields and splitting again gives the fields back. */
  lemma {:induction false} SplitJoin(items: seq<string>, sep: char)
    requires |items| >= 1
    requires forall k :: 0 <= k < |items| ==> sep !in items[k]
    ensures Split(Join(items, [sep]), sep) == items
  {
    if |items| == 1 {
      SplitNoSeparator(items[0], sep);
    } else {
      SplitJoin(items[1..], sep);
      SplitField(items[0], sep, Join(items[1..], [sep]));
      assert items == [items[0]] + items[1..];
    }
  }

  lemma {:induction false} SplitNoSeparator(s: string, sep: char)
    requires sep !in s
    ensures Split(s, sep) == [s]
  {
    if |s| > 0 {
      SplitNoSeparator(s[1..], sep);
      assert [s[0]] + s[1..] == s;
    }
  }

  /** Python's `<` on strings: code point by code point, a proper prefix first. */
  function LexLess(a: string, b: string): bool {
    if |a| == 0 then |b| > 0
    else if |b| == 0 then false
    else if a[0] == b[0] then LexLess(a[1..], b[1..])
    else a[0] < b[0]
  }

  lemma {:induction false} LexLessIrreflexive(a: string)
    ensures !LexLess(a, a)
  {
    if |a| > 0 {
      LexLessIrreflexive(a[1..]);
    }
  }

  lemma {:induction false} LexLessTransitive(a: string, b: string, c: string)
    requires LexLess(a, b) && LexLess(b, c)
    ensures LexLess(a, c)
  {
    if |a| > 0 && |b| > 0 && |c| > 0 && a[0] == b[0] && b[0] == c[0] {
      LexLessTransitive(a[1..], b[1..], c[1..]);
    }
  }

  lemma {:induction false} LexLessTotal(a: string, b: string)
    requires a != b
    ensures LexLess(a, b) || LexLess(b, a)
  {
    if |a| > 0 && |b| > 0 && a[0] == b[0] {
      assert a == [a[0]] + a[1..] && b == [b[0]] + b[1..];
      LexLessTotal(a[1..], b[1..]);
    }
  }
}
