/**
 * The PHP string functions the generators rely on, with PHP's semantics: `strpos` used as a
 * test, `str_pad`, `str_replace`, `explode`, `implode`, `substr($s, 0, -1)` and reading a
 * character by a possibly negative offset.
 */
module PhpString {
  import opened Wrappers

  /** `0 === strpos(s, p)`: `s` starts with `p`. */
  predicate StartsWith(s: string, p: string) {
    |p| <= |s| && s[..|p|] == p
  }

  /** `false !== strpos(s, p)`: `p` occurs somewhere in `s`. */
  predicate Contains(s: string, p: string)
    decreases |s|
  {
    StartsWith(s, p) || (|s| > 0 && Contains(s[1..], p))
  }

  /** `strpos(s, p)` read as a truth value: `p` occurs and its first occurrence is not at offset 0. */
  predicate FoundAfterStart(s: string, p: string) {
    Contains(s, p) && !StartsWith(s, p)
  }

  /** `str_pad('', n)`: `n` spaces, and the empty string when `n <= 0`. */
  function Spaces(n: int): (r: string)
    ensures |r| == if n > 0 then n else 0
    ensures forall i :: 0 <= i < |r| ==> r[i] == ' '
  {
    if n <= 0 then "" else seq(n, _ => ' ')
  }

  /** `str_replace(search, replace, s)`: every non-overlapping occurrence, scanning left to right. */
  function ReplaceAll(s: string, search: string, replace: string): (r: string)
    requires search != []
    decreases |s|
  {
    if |s| < |search| then s
    else if s[..|search|] == search then replace + ReplaceAll(s[|search|..], search, replace)
    else [s[0]] + ReplaceAll(s[1..], search, replace)
  }

  /** `explode(sep, s)` for a one-character separator: the pieces between separators. */
  function Explode(s: string, sep: char): (parts: seq<string>)
    ensures |parts| >= 1
    ensures forall i :: 0 <= i < |parts| ==> sep !in parts[i]
    decreases |s|
  {
    if s == [] then [""]
    else
      var rest := Explode(s[1..], sep);
      if s[0] == sep then [""] + rest else [[s[0]] + rest[0]] + rest[1..]
  }

  /** `implode(sep, parts)`. */
  function Implode(parts: seq<string>, sep: string): (joined: string)
    decreases |parts|
  {
    if parts == [] then ""
    else if |parts| == 1 then parts[0]
    else parts[0] + sep + Implode(parts[1..], sep)
  }

  /** The pieces written one after the other. */
  function Concat(parts: seq<string>): (joined: string)
    decreases |parts|
  {
    if parts == [] then "" else parts[0] + Concat(parts[1..])
  }

  /** `s` with every occurrence of the character `c` taken out. */
  function Remove(s: string, c: char): (r: string)
    decreases |s|
  {
    if s == [] then "" else (if s[0] == c then "" else [s[0]]) + Remove(s[1..], c)
  }

  /** `substr(s, 0, -n)` for `n > 0`: `s` without its last `n` characters, empty when `n >= |s|`. */
  function DropLast(s: string, n: nat): (r: string)
    ensures |r| == if n < |s| then |s| - n else 0
  {
    if n < |s| then s[..|s| - n] else ""
  }

  /**
   * `$s[i]` for an int offset: offsets from the end when negative (PHP 7.1 and later), and
   * no character (an empty string with a warning) outside `-|s| <= i < |s|`.
   */
  function CharAt(s: string, i: int): (r: Option<char>)
    ensures r.Some? <==> -|s| <= i < |s|
  {
    if 0 <= i < |s| then Some(s[i])
    else if -|s| <= i < 0 then Some(s[|s| + i])
    else None
  }

  lemma {:induction false} RemoveAppend(a: string, b: string, c: char)
    ensures Remove(a + b, c) == Remove(a, c) + Remove(b, c)
    decreases |a|
  {
    if a == [] {
      assert a + b == b;
    } else {
      assert (a + b)[0] == a[0];
      assert (a + b)[1..] == a[1..] + b;
      RemoveAppend(a[1..], b, c);
    }
  }

  lemma RemoveAbsent(s: string, c: char)
    requires c !in s
    ensures Remove(s, c) == s
    decreases |s|
  {
    if s != [] {
      RemoveAbsent(s[1..], c);
    }
  }

  /** Putting a character in front of every occurrence of a pattern only adds that character. */
  lemma {:induction false} ReplaceInsertsOnly(s: string, search: string, c: char)
    requires search != []
    ensures Remove(ReplaceAll(s, search, [c] + search), c) == Remove(s, c)
    decreases |s|
  {
    var rep := [c] + search;
    if |s| < |search| {
    } else if s[..|search|] == search {
      var t := s[|search|..];
      ReplaceInsertsOnly(t, search, c);
      ReplaceMatchStep(s, search, c);
    } else {
      var t := s[1..];
      ReplaceInsertsOnly(t, search, c);
      ReplaceSkipStep(s, search, c);
    }
  }

  lemma ReplaceMatchStep(s: string, search: string, c: char)
    requires search != [] && |search| <= |s| && s[..|search|] == search
    requires Remove(ReplaceAll(s[|search|..], search, [c] + search), c) == Remove(s[|search|..], c)
    ensures Remove(ReplaceAll(s, search, [c] + search), c) == Remove(s, c)
  {
    var rt := ReplaceAll(s[|search|..], search, [c] + search);
    ReplaceUnfoldMatch(s, search, [c] + search);
    RemoveMarked(search, rt, c);
    RemoveSplit(s, search, c);
  }

  lemma ReplaceUnfoldMatch(s: string, search: string, rep: string)
    requires search != [] && |search| <= |s| && s[..|search|] == search
    ensures ReplaceAll(s, search, rep) == rep + ReplaceAll(s[|search|..], search, rep)
  {
  }

  lemma RemoveMarked(search: string, rt: string, c: char)
    ensures Remove([c] + search + rt, c) == Remove(search, c) + Remove(rt, c)
  {
    assert [c] + search + rt == [c] + (search + rt);
    RemoveCons(c, search + rt, c);
    RemoveAppend(search, rt, c);
  }

  lemma RemoveCons(c0: char, t: string, c: char)
    ensures Remove([c0] + t, c) == (if c0 == c then "" else [c0]) + Remove(t, c)
  {
    assert ([c0] + t)[1..] == t;
  }

  lemma RemoveSplit(s: string, search: string, c: char)
    requires |search| <= |s| && s[..|search|] == search
    ensures Remove(search, c) + Remove(s[|search|..], c) == Remove(s, c)
  {
    RemoveAppend(search, s[|search|..], c);
    assert s == search + s[|search|..];
  }

  lemma ReplaceSkipStep(s: string, search: string, c: char)
    requires search != [] && |search| <= |s| && s[..|search|] != search
    requires Remove(ReplaceAll(s[1..], search, [c] + search), c) == Remove(s[1..], c)
    ensures Remove(ReplaceAll(s, search, [c] + search), c) == Remove(s, c)
  {
    var rt := ReplaceAll(s[1..], search, [c] + search);
    assert ReplaceAll(s, search, [c] + search) == [s[0]] + rt;
    RemoveCons(s[0], rt, c);
  }

  /** `implode` with the separator undoes `explode`. */
  lemma {:induction false} ImplodeExplode(s: string, sep: char)
    ensures Implode(Explode(s, sep), [sep]) == s
    decreases |s|
  {
    if s != [] {
      ImplodeExplode(s[1..], sep);
      var rest := Explode(s[1..], sep);
      if s[0] == sep {
        assert Explode(s, sep) == [""] + rest;
        assert (["" ] + rest)[1..] == rest;
      } else {
        var parts := Explode(s, sep);
        assert parts == [[s[0]] + rest[0]] + rest[1..];
        if |rest| == 1 {
        } else {
          assert parts[1..] == rest[1..];
          assert Implode(rest, [sep]) == rest[0] + [sep] + Implode(rest[1..], [sep]);
        }
      }
    }
  }

  /** The pieces of `explode` hold exactly the characters of `s` other than the separator, in order. */
  lemma {:induction false} ConcatExplode(s: string, sep: char)
    ensures Concat(Explode(s, sep)) == Remove(s, sep)
    decreases |s|
  {
    if s != [] {
      ConcatExplode(s[1..], sep);
      var rest := Explode(s[1..], sep);
      if s[0] == sep {
        assert Explode(s, sep) == [""] + rest;
      } else {
        var parts := Explode(s, sep);
        assert parts == [[s[0]] + rest[0]] + rest[1..];
        assert parts[1..] == rest[1..];
        assert Concat(rest) == rest[0] + Concat(rest[1..]);
      }
    }
  }

  /** Joining pieces distributes over putting two lists of pieces together. */
  lemma {:induction false} ConcatAppend(a: seq<string>, b: seq<string>)
    ensures Concat(a + b) == Concat(a) + Concat(b)
    decreases |a|
  {
    if a == [] {
      assert a + b == b;
    } else {
      assert (a + b)[0] == a[0];
      assert (a + b)[1..] == a[1..] + b;
      ConcatAppend(a[1..], b);
    }
  }

  /** The first `n` pieces put together are the first `n - 1` and then piece `n - 1`. */
  lemma ConcatPrefix(parts: seq<string>, n: nat)
    requires 0 < n <= |parts|
    ensures Concat(parts[..n]) == Concat(parts[..n - 1]) + parts[n - 1]
  {
    assert parts[..n] == parts[..n - 1] + [parts[n - 1]];
    ConcatAppend(parts[..n - 1], [parts[n - 1]]);
    assert Concat([parts[n - 1]]) == parts[n - 1] + "";
  }

  /** An occurrence at offset `k` is an occurrence. */
  lemma {:induction false} ContainsAt(s: string, p: string, k: nat)
    requires k <= |s| && StartsWith(s[k..], p)
    ensures Contains(s, p)
    decreases k
  {
    if k > 0 {
      assert s[1..][k - 1..] == s[k..];
      ContainsAt(s[1..], p, k - 1);
    }
  }

  /** A string shorter than the pattern does not contain it. */
  lemma {:induction false} ShortNotContains(s: string, p: string)
    requires |s| < |p|
    ensures !Contains(s, p)
    decreases |s|
  {
    if |s| > 0 {
      ShortNotContains(s[1..], p);
    }
  }

  /** A stretch that cannot begin an occurrence passes through `str_replace` unchanged. */
  lemma {:induction false} ReplaceSkipChunk(a: string, b: string, search: string, rep: string)
    requires search != [] && search[0] !in a
    ensures ReplaceAll(a + b, search, rep) == a + ReplaceAll(b, search, rep)
    decreases |a|
  {
    if a != [] {
      var s := a + b;
      assert s[0] == a[0];
      assert s[1..] == a[1..] + b;
      ReplaceSkipChunk(a[1..], b, search, rep);
      if |s| < |search| {
        ShortReplace(b, search, rep);
      }
    } else {
      assert a + b == b;
    }
  }

  lemma ShortReplace(s: string, search: string, rep: string)
    requires search != [] && |s| < |search|
    ensures ReplaceAll(s, search, rep) == s
  {
  }

  /** A piece without the separator, then the separator, is the first piece of `explode`. */
  lemma {:induction false} ExplodeChunk(a: string, b: string, sep: char)
    requires sep !in a
    ensures Explode(a + [sep] + b, sep) == [a] + Explode(b, sep)
    decreases |a|
  {
    var s := a + [sep] + b;
    if a == [] {
      assert s == [sep] + b;
      assert s[1..] == b;
    } else {
      assert s[0] == a[0];
      assert s[1..] == a[1..] + [sep] + b;
      ExplodeChunk(a[1..], b, sep);
      var rest := Explode(s[1..], sep);
      assert rest[0] == a[1..] && rest[1..] == Explode(b, sep);
      assert [s[0]] + rest[0] == a;
    }
  }

  /** A piece without the separator in front of a string joins the first piece of `explode`. */
  lemma {:induction false} ExplodePrefix(a: string, b: string, sep: char)
    requires sep !in a
    ensures Explode(a + b, sep) == [a + Explode(b, sep)[0]] + Explode(b, sep)[1..]
    decreases |a|
  {
    if a != [] {
      var s := a + b;
      assert s[0] == a[0] && s[1..] == a[1..] + b;
      ExplodePrefix(a[1..], b, sep);
      assert [a[0]] + (a[1..] + Explode(b, sep)[0]) == a + Explode(b, sep)[0];
    } else {
      var parts := Explode(b, sep);
      assert a + b == b && a + parts[0] == parts[0];
      assert parts == [parts[0]] + parts[1..];
    }
  }

  /** A string without the separator is a single piece. */
  lemma {:induction false} ExplodeWhole(a: string, sep: char)
    requires sep !in a
    ensures Explode(a, sep) == [a]
    decreases |a|
  {
    if a != [] {
      ExplodeWhole(a[1..], sep);
      assert [a[0]] + a[1..] == a;
    }
  }

  /** Where the text differs from the pattern at offset `k`, `str_replace` moves on by one character. */
  lemma ReplaceMismatch(s: string, search: string, rep: string, k: nat)
    requires search != [] && |search| <= |s| && k < |search| && s[k] != search[k]
    ensures ReplaceAll(s, search, rep) == [s[0]] + ReplaceAll(s[1..], search, rep)
  {
    assert s[..|search|][k] != search[k];
  }
}
