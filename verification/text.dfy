/**
 * Strings as JavaScript sees them: `split`/`join` on a one-character
 * separator, `slice` with negative and out-of-range bounds, and the
 * suffix and substring tests the bundler's regular expressions perform.
 */
module Text {

  datatype Option<T> = None | Some(value: T)

  datatype Result<T, E> = Ok(value: T) | Err(error: E)

  /** `s.split(sep)`: always at least one part, and no part holds `sep`. */
  function Split(s: string, sep: char): (parts: seq<string>)
    ensures |parts| >= 1
    ensures forall i | 0 <= i < |parts| :: sep !in parts[i]
    ensures |parts| == 1 <==> sep !in s
    decreases |s|
  {
    if |s| == 0 then [""]
    else if s[0] == sep then [""] + Split(s[1..], sep)
    else
      var rest := Split(s[1..], sep);
      [[s[0]] + rest[0]] + rest[1..]
  }

  /** `parts.join(sep)`. */
  function Join(parts: seq<string>, sep: char): string
  {
    if |parts| == 0 then ""
    else if |parts| == 1 then parts[0]
    else parts[0] + [sep] + Join(parts[1..], sep)
  }

  /** Joining the parts of a split gives the original string back. */
  lemma {:induction false} JoinSplit(s: string, sep: char)
    ensures Join(Split(s, sep), sep) == s
    decreases |s|
  {
    if |s| > 0 {
      JoinSplit(s[1..], sep);
      var rest := Split(s[1..], sep);
      if s[0] == sep {
        assert Split(s, sep) == [""] + rest;
        assert ([""] + rest)[1..] == rest;
      } else {
        var parts := Split(s, sep);
        assert parts == [[s[0]] + rest[0]] + rest[1..];
        if |rest| > 1 {
          assert parts[1..] == rest[1..];
          assert Join(rest, sep) == rest[0] + [sep] + Join(rest[1..], sep);
        }
      }
    }
  }

  lemma {:induction false} SplitWithoutSeparator(a: string, sep: char)
    requires sep !in a
    ensures Split(a, sep) == [a]
    decreases |a|
  {
    if |a| > 0 {
      SplitWithoutSeparator(a[1..], sep);
      assert [a[0]] + a[1..] == a;
    }
  }

  lemma {:induction false} SplitAfterSeparator(a: string, b: string, sep: char)
    requires sep !in a
    ensures Split(a + [sep] + b, sep) == [a] + Split(b, sep)
    decreases |a|
  {
    if |a| == 0 {
      assert a + [sep] + b == [sep] + b;
      assert ([sep] + b)[1..] == b;
    } else {
      var t := a[1..] + [sep] + b;
      var r := Split(b, sep);
      SplitAfterSeparator(a[1..], b, sep);
      assert Split(t, sep) == [a[1..]] + r;
      assert ([a[1..]] + r)[1..] == r;
      assert a + [sep] + b == [a[0]] + t;
      SplitCons(a[0], t, sep);
      assert [a[0]] + a[1..] == a;
    }
  }

  /** A leading character other than the separator joins the first part. */
  lemma SplitCons(c: char, t: string, sep: char)
    requires c != sep
    ensures Split([c] + t, sep) == [[c] + Split(t, sep)[0]] + Split(t, sep)[1..]
  {
    assert ([c] + t)[1..] == t;
  }

  /** Splitting a join of separator-free parts gives the parts back. */
  lemma {:induction false} SplitJoin(parts: seq<string>, sep: char)
    requires |parts| >= 1
    requires forall i | 0 <= i < |parts| :: sep !in parts[i]
    ensures Split(Join(parts, sep), sep) == parts
    decreases |parts|
  {
    if |parts| == 1 {
      SplitWithoutSeparator(parts[0], sep);
    } else {
      SplitJoin(parts[1..], sep);
      SplitAfterSeparator(parts[0], Join(parts[1..], sep), sep);
      assert [parts[0]] + parts[1..] == parts;
    }
  }

  lemma {:induction false} JoinCons(parts: seq<string>, sep: char)
    requires |parts| >= 2
    ensures Join(parts, sep) == parts[0] + [sep] + Join(parts[1..], sep)
  {
  }

  /** Joining is joining all but the last part, then the separator and the last part. */
  lemma {:induction false} JoinSnoc(parts: seq<string>, sep: char)
    requires |parts| >= 2
    ensures Join(parts, sep) == Join(parts[..|parts| - 1], sep) + [sep] + parts[|parts| - 1]
    decreases |parts|
  {
    var init := parts[..|parts| - 1];
    if |parts| == 2 {
      assert init == [parts[0]];
      assert parts[1..] == [parts[1]];
    } else {
      JoinSnoc(parts[1..], sep);
      assert parts[1..][..|parts| - 2] == init[1..];
      JoinCons(init, sep);
    }
  }

  /** A path segment that names a file or folder: not '', '.' or '..', and free of '/'. */
  predicate IsName(s: string)
  {
    s != "" && s != "." && s != ".." && '/' !in s
  }

  predicate StartsWith(s: string, prefix: string)
  {
    |prefix| <= |s| && s[..|prefix|] == prefix
  }

  /** `/suffix$/.test(s)` for a literal suffix. */
  predicate EndsWith(s: string, suffix: string)
  {
    |suffix| <= |s| && s[|s| - |suffix|..] == suffix
  }

  /** `/infix/.test(s)` for a literal infix: `s.indexOf(infix) !== -1`. */
  predicate Contains(s: string, infix: string)
  {
    |infix| <= |s| && (s[..|infix|] == infix || Contains(s[1..], infix))
  }

  /** `infix` occurs in `s` at position `k`. */
  predicate OccursAt(s: string, infix: string, k: int)
  {
    0 <= k && k + |infix| <= |s| && s[k..k + |infix|] == infix
  }

  /** `s.indexOf(infix) !== -1`: the infix starts at some position. */
  lemma {:induction false} ContainsAt(s: string, infix: string)
    ensures Contains(s, infix) <==> exists k :: OccursAt(s, infix, k)
  {
    if |infix| <= |s| && s[..|infix|] != infix {
      ContainsAt(s[1..], infix);
      if Contains(s[1..], infix) {
        var k :| OccursAt(s[1..], infix, k);
        TailSlice(s, k + 1, |infix|);
        assert OccursAt(s, infix, k + 1);
      } else {
        forall k | OccursAt(s, infix, k)
          ensures false
        {
          if k > 0 {
            TailSlice(s, k, |infix|);
            assert OccursAt(s[1..], infix, k - 1);
          }
        }
      }
    } else if |infix| <= |s| {
      assert OccursAt(s, infix, 0);
    } else {
      forall k | OccursAt(s, infix, k)
        ensures false
      {
      }
    }
  }

  /** A piece of `s` away from its head is the same piece of its tail, one position earlier. */
  lemma TailSlice(s: string, k: int, n: nat)
    requires 1 <= k && k + n <= |s|
    ensures s[k..k + n] == s[1..][k - 1..k - 1 + n]
  {
  }

  /** No position of `s` starts with the first two characters of `infix`, so `infix` does not occur. */
  lemma NotContained(s: string, infix: string)
    requires |infix| >= 2
    requires forall k | 0 <= k && k + |infix| <= |s| :: s[k] != infix[0] || s[k + 1] != infix[1]
    ensures !Contains(s, infix)
  {
    forall k | 0 <= k && k + |infix| <= |s|
      ensures !OccursAt(s, infix, k)
    {
      assert s[k..k + |infix|][0] == s[k] && s[k..k + |infix|][1] == s[k + 1];
    }
    ContainsAt(s, infix);
  }

  /** The position `String.prototype.slice` makes of one bound. */
  function SliceIndex(len: nat, bound: int): (k: nat)
    ensures k <= len
    ensures 0 <= bound <= len ==> k == bound
    ensures -(len as int) <= bound < 0 ==> k as int == len as int + bound
  {
    if bound < 0 then (if len + bound < 0 then 0 else len + bound)
    else if bound > len then len
    else bound
  }

  /** `s.slice(start, end)`: empty when the bounds cross. */
  function Slice(s: string, start: int, end: int): (r: string)
    ensures |r| <= |s|
    ensures forall i | 0 <= i < |r| :: r[i] in s
  {
    var a := SliceIndex(|s|, start);
    var b := SliceIndex(|s|, end);
    if a < b then s[a..b] else ""
  }

  /** Cutting a known prefix and suffix off a string leaves what was between. */
  lemma SliceBetween(prefix: string, middle: string, suffix: string)
    requires |suffix| > 0
    ensures Slice(prefix + middle + suffix, |prefix|, -|suffix|) == middle
  {
    var s := prefix + middle + suffix;
    assert SliceIndex(|s|, -|suffix|) == |prefix| + |middle|;
    if |middle| > 0 {
      assert s[|prefix|..|prefix| + |middle|] == middle;
    }
  }

  /** The largest of two integers. */
  function Max(a: int, b: int): (m: int)
    ensures m >= a && m >= b
    ensures m == a || m == b
  {
    if a < b then b else a
  }
}
