/** The functions of Go's `strings` package that the scraped-text decoders rely on.
    Strings are sequences of runes, as `TrimFunc` and `Split` see them. */
module GoStrings {

  /** Every rune of `s` satisfies `f`. */
  predicate All(s: string, f: char -> bool)
  {
    forall k :: 0 <= k < |s| ==> f(s[k])
  }

  /** `strings.TrimLeftFunc`: drops the longest prefix whose runes all satisfy `f`. */
  function TrimLeftFunc(s: string, f: char -> bool): (r: string)
    ensures |r| <= |s|
  {
    if s != [] && f(s[0]) then TrimLeftFunc(s[1..], f) else s
  }

  /** What `TrimLeftFunc` keeps is a suffix of its input, what it drops all satisfies `f`, and
      the first rune kept does not. */
  lemma {:induction false} TrimLeftFuncSpec(s: string, f: char -> bool)
    ensures var r := TrimLeftFunc(s, f);
            && r == s[|s| - |r|..]
            && All(s[..|s| - |r|], f)
            && (r != [] ==> !f(r[0]))
  {
    if s != [] && f(s[0]) {
      TrimLeftFuncSpec(s[1..], f);
      var r := TrimLeftFunc(s, f);
      assert s[1..][..|s| - 1 - |r|] == s[1..|s| - |r|];
    }
  }

  /** `strings.TrimRightFunc`: drops the longest suffix whose runes all satisfy `f`. */
  function TrimRightFunc(s: string, f: char -> bool): (r: string)
    ensures |r| <= |s|
  {
    if s != [] && f(s[|s| - 1]) then TrimRightFunc(s[..|s| - 1], f) else s
  }

  /** What `TrimRightFunc` keeps is a prefix of its input, what it drops all satisfies `f`, and
      the last rune kept does not. */
  lemma {:induction false} TrimRightFuncSpec(s: string, f: char -> bool)
    ensures var r := TrimRightFunc(s, f);
            && r == s[..|r|]
            && All(s[|r|..], f)
            && (r != [] ==> !f(r[|r| - 1]))
  {
    if s != [] && f(s[|s| - 1]) {
      TrimRightFuncSpec(s[..|s| - 1], f);
      var r := TrimRightFunc(s, f);
      assert s[..|s| - 1][|r|..] + [s[|s| - 1]] == s[|r|..];
    }
  }

  /** `r` is the slice of `s` that starts at `i`, and every rune of `s` outside it satisfies `f`. */
  predicate TrimmedAt(s: string, r: string, i: nat, f: char -> bool)
  {
    i + |r| <= |s| && r == s[i..i + |r|] && All(s[..i], f) && All(s[i + |r|..], f)
  }

  /** `strings.TrimFunc`: drops the runes satisfying `f` from both ends. */
  function TrimFunc(s: string, f: char -> bool): (r: string)
    ensures |r| <= |s|
  {
    TrimRightFunc(TrimLeftFunc(s, f), f)
  }

  /** `TrimFunc` keeps one contiguous slice of its input, drops only runes satisfying `f`, and
      keeps no such rune at either end. */
  lemma TrimFuncSpec(s: string, f: char -> bool)
    ensures var r := TrimFunc(s, f);
            && (r != [] ==> !f(r[0]) && !f(r[|r| - 1]))
            && exists i :: TrimmedAt(s, r, i, f)
  {
    var left := TrimLeftFunc(s, f);
    var r := TrimRightFunc(left, f);
    TrimLeftFuncSpec(s, f);
    TrimRightFuncSpec(left, f);
    var i := |s| - |left|;
    assert r == s[i..i + |r|];
    assert s[i + |r|..] == left[|r|..];
    assert TrimmedAt(s, r, i, f);
  }

  /** The predicate `strings.Trim` trims by: membership in the cutset. */
  function InCutset(cutset: string): char -> bool
  {
    c => c in cutset
  }

  /** `strings.Trim` with a cutset: drops the runes of `cutset` from both ends. */
  function TrimCutset(s: string, cutset: string): (r: string)
    ensures r != [] ==> r[0] !in cutset && r[|r| - 1] !in cutset
    ensures exists i :: TrimmedAt(s, r, i, InCutset(cutset))
  {
    TrimFuncSpec(s, InCutset(cutset));
    TrimFunc(s, InCutset(cutset))
  }

  /** `strings.TrimPrefix`: drops `prefix` once when `s` starts with it. */
  function TrimPrefix(s: string, prefix: string): (r: string)
    ensures if prefix <= s then s == prefix + r else r == s
  {
    if prefix <= s then s[|prefix|..] else s
  }

  /** The runes of Unicode's White_Space property. */
  const WhiteSpace: set<char> :=
    {'\t', '\n', '\U{B}', '\U{C}', '\r', ' ', '\U{85}', '\U{A0}', '\U{1680}',
     '\U{2000}', '\U{2001}', '\U{2002}', '\U{2003}', '\U{2004}', '\U{2005}', '\U{2006}',
     '\U{2007}', '\U{2008}', '\U{2009}', '\U{200A}',
     '\U{2028}', '\U{2029}', '\U{202F}', '\U{205F}', '\U{3000}'}

  /** `unicode.IsSpace`: the Latin-1 spaces plus the White_Space runes above U+00FF. */
  predicate IsSpace(c: char): (space: bool)
    ensures space <==> c in WhiteSpace
  {
    c == '\t' || c == '\n' || c == '\U{B}' || c == '\U{C}' || c == '\r' || c == ' ' ||
    c == '\U{85}' || c == '\U{A0}' || c == '\U{1680}' || ('\U{2000}' <= c <= '\U{200A}') ||
    c == '\U{2028}' || c == '\U{2029}' || c == '\U{202F}' || c == '\U{205F}' || c == '\U{3000}'
  }

  /** `strings.TrimSpace`: drops white space from both ends. */
  function TrimSpace(s: string): (r: string)
    ensures r != [] ==> !IsSpace(r[0]) && !IsSpace(r[|r| - 1])
    ensures exists i :: TrimmedAt(s, r, i, IsSpace)
  {
    TrimFuncSpec(s, IsSpace);
    TrimFunc(s, IsSpace)
  }

  lemma {:induction false} TrimLeftSkips(pre: string, t: string, f: char -> bool)
    requires All(pre, f)
    ensures TrimLeftFunc(pre + t, f) == TrimLeftFunc(t, f)
  {
    if pre != [] {
      assert (pre + t)[1..] == pre[1..] + t;
      assert All(pre[1..], f) by { forall k | 0 <= k < |pre| - 1 ensures f(pre[1..][k]) { assert pre[1..][k] == pre[k + 1]; } }
      TrimLeftSkips(pre[1..], t, f);
    } else {
      assert pre + t == t;
    }
  }

  lemma {:induction false} TrimRightSkips(t: string, post: string, f: char -> bool)
    requires All(post, f)
    ensures TrimRightFunc(t + post, f) == TrimRightFunc(t, f)
  {
    if post != [] {
      var last := |post| - 1;
      assert (t + post)[|t + post| - 1] == post[last] && f(post[last]);
      assert (t + post)[..|t + post| - 1] == t + post[..last];
      assert All(post[..last], f) by { forall k | 0 <= k < last ensures f(post[..last][k]) { assert post[..last][k] == post[k]; } }
      TrimRightSkips(t, post[..last], f);
    } else {
      assert t + post == t;
    }
  }

  /** What `TrimFunc` returns is fixed by any split of its input into a trimmable prefix, a core
      whose end runes are kept, and a trimmable suffix. */
  lemma TrimFuncExact(pre: string, core: string, post: string, f: char -> bool)
    requires All(pre, f) && All(post, f)
    requires core == [] || (!f(core[0]) && !f(core[|core| - 1]))
    ensures TrimFunc(pre + core + post, f) == core
  {
    var s := pre + core + post;
    assert s == pre + (core + post);
    TrimLeftSkips(pre, core + post, f);
    if core == [] {
      assert core + post == post + [];
      TrimLeftSkips(post, [], f);
      assert TrimLeftFunc(s, f) == [];
    } else {
      assert (core + post)[0] == core[0];
      assert TrimLeftFunc(s, f) == core + post;
      TrimRightSkips(core, post, f);
      assert TrimRightFunc(core, f) == core;
    }
  }

  /** Trimming twice trims no more than trimming once. */
  lemma TrimFuncIdempotent(s: string, f: char -> bool)
    ensures TrimFunc(TrimFunc(s, f), f) == TrimFunc(s, f)
  {
    var r := TrimFunc(s, f);
    TrimFuncSpec(s, f);
    assert [] + r + [] == r;
    TrimFuncExact([], r, [], f);
  }

  /** `strings.ReplaceAll(s, string(c), "")`: deletes every occurrence of the rune `c`. */
  function DeleteRune(s: string, c: char): (r: string)
    ensures |r| <= |s|
  {
    if s == [] then []
    else
      var rest := DeleteRune(s[1..], c);
      if s[0] == c then rest else [s[0]] + rest
  }

  /** `DeleteRune` leaves no `c`, keeps every other rune as often as it occurs, and changes
      nothing when there is no `c`. */
  lemma {:induction false} DeleteRuneSpec(s: string, c: char)
    ensures var r := DeleteRune(s, c);
            && c !in r
            && (c !in s ==> r == s)
            && forall x :: x != c ==> multiset(r)[x] == multiset(s)[x]
  {
    if s != [] {
      DeleteRuneSpec(s[1..], c);
      assert s == [s[0]] + s[1..];
    }
  }

  /** Deleting a rune keeps the order of everything else: it distributes over concatenation. */
  lemma {:induction false} DeleteRuneAppend(a: string, b: string, c: char)
    ensures DeleteRune(a + b, c) == DeleteRune(a, c) + DeleteRune(b, c)
  {
    if a != [] {
      assert (a + b)[0] == a[0];
      assert (a + b)[1..] == a[1..] + b;
      DeleteRuneAppend(a[1..], b, c);
    } else {
      assert a + b == b;
    }
  }

  /** `strings.Split` with a one-rune separator: the pieces between consecutive separators;
      an input without separators (also the empty one) is a single piece. */
  function Split(s: string, sep: char): (parts: seq<string>)
    ensures |parts| >= 1
  {
    if s == [] then [[]]
    else
      var rest := Split(s[1..], sep);
      if s[0] == sep then [[]] + rest
      else [[s[0]] + rest[0]] + rest[1..]
  }

  /** No piece of a split holds the separator. */
  lemma {:induction false} SplitPartsSeparatorFree(s: string, sep: char)
    ensures forall i :: 0 <= i < |Split(s, sep)| ==> sep !in Split(s, sep)[i]
  {
    if s != [] {
      SplitPartsSeparatorFree(s[1..], sep);
      var rest := Split(s[1..], sep);
      if s[0] != sep {
        assert forall i :: 1 <= i < |Split(s, sep)| ==> Split(s, sep)[i] == rest[i];
      }
    }
  }

  /** `strings.Join` with a one-rune separator. */
  function Join(parts: seq<string>, sep: char): string
  {
    if |parts| == 0 then []
    else if |parts| == 1 then parts[0]
    else parts[0] + [sep] + Join(parts[1..], sep)
  }

  lemma SplitWithoutSeparator(s: string, sep: char)
    requires sep !in s
    ensures Split(s, sep) == [s]
  {
    if s != [] {
      SplitWithoutSeparator(s[1..], sep);
      assert s == [s[0]] + s[1..];
    }
  }

  /** A separator cuts the input into two independently split halves. */
  lemma {:induction false} SplitAppend(a: string, b: string, sep: char)
    ensures Split(a + [sep] + b, sep) == Split(a, sep) + Split(b, sep)
  {
    if a == [] {
      assert a + [sep] + b == [sep] + b;
      assert ([sep] + b)[1..] == b;
    } else {
      assert (a + [sep] + b)[1..] == a[1..] + [sep] + b;
      SplitAppend(a[1..], b, sep);
    }
  }

  /** The last piece of a split is whatever follows the last separator. */
  lemma SplitLast(prefix: string, last: string, sep: char)
    requires sep !in last
    ensures var parts := Split(prefix + [sep] + last, sep); parts[|parts| - 1] == last
  {
    SplitAppend(prefix, last, sep);
    SplitWithoutSeparator(last, sep);
  }

  /** Joining the pieces of a split gives back the input. */
  lemma {:induction false} JoinSplit(s: string, sep: char)
    ensures Join(Split(s, sep), sep) == s
  {
    if s != [] {
      JoinSplit(s[1..], sep);
      var rest := Split(s[1..], sep);
      if s[0] == sep {
        assert Split(s, sep)[1..] == rest;
        assert s == [sep] + s[1..];
      } else {
        var parts := Split(s, sep);
        if |rest| == 1 {
          assert s == [s[0]] + s[1..];
        } else {
          assert parts[1..] == rest[1..];
          assert s == [s[0]] + s[1..];
          assert Join(rest, sep) == rest[0] + [sep] + Join(rest[1..], sep);
        }
      }
    }
  }

  /** Splitting a join of separator-free pieces gives back the pieces. */
  lemma {:induction false} SplitJoin(parts: seq<string>, sep: char)
    requires |parts| >= 1
    requires forall i :: 0 <= i < |parts| ==> sep !in parts[i]
    ensures Split(Join(parts, sep), sep) == parts
  {
    if |parts| == 1 {
      SplitWithoutSeparator(parts[0], sep);
    } else {
      SplitJoin(parts[1..], sep);
      SplitAppend(parts[0], Join(parts[1..], sep), sep);
      SplitWithoutSeparator(parts[0], sep);
      assert parts == [parts[0]] + parts[1..];
    }
  }
}
