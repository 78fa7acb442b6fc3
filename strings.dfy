/**
 * The JavaScript string operations the compilers use, over `string` (= `seq<char>`):
 * `includes`, `startsWith`, `endsWith`, `indexOf`, `replace` with a string pattern
 * (first occurrence only), `split` on one character, `join` and `trim`.
 */
module Strings {
  import opened Wrappers

  predicate StartsWith(s: string, prefix: string) {
    |prefix| <= |s| && s[..|prefix|] == prefix
  }

  predicate EndsWith(s: string, suffix: string) {
    |suffix| <= |s| && s[|s| - |suffix|..] == suffix
  }

  lemma StartsWithConcat(a: string, b: string)
    ensures StartsWith(a + b, a)
  {
    assert (a + b)[..|a|] == a;
  }

  lemma EndsWithConcat(a: string, b: string)
    ensures EndsWith(a + b, b)
  {
    assert (a + b)[|a + b| - |b|..] == b;
  }

  /** `sub` occurs in `s` at position `i`: the declarative reading of a substring. */
  ghost predicate OccursAt(s: string, sub: string, i: int) {
    0 <= i && i + |sub| <= |s| && s[i..i + |sub|] == sub
  }

  lemma SliceOfTail(s: string, i: int, j: int)
    requires 1 <= i <= j <= |s|
    ensures s[i..j] == s[1..][i - 1..j - 1]
  {
  }

  lemma OccursAtTail(s: string, sub: string)
    requires |s| > 0
    ensures forall j {:trigger OccursAt(s, sub, j)} :: 1 <= j ==> (OccursAt(s, sub, j) <==> OccursAt(s[1..], sub, j - 1))
  {
    forall j | 1 <= j
      ensures OccursAt(s, sub, j) <==> OccursAt(s[1..], sub, j - 1)
    {
      if j + |sub| <= |s| {
        SliceOfTail(s, j, j + |sub|);
      }
    }
  }

  /** `s.indexOf(sub)`: the first position at which `sub` occurs, if any. */
  function IndexOf(s: string, sub: string): (r: Option<nat>)
    ensures r.Some? ==> OccursAt(s, sub, r.value)
    ensures r.Some? ==> forall j :: 0 <= j < r.value ==> !OccursAt(s, sub, j)
    ensures r.None? ==> forall j :: !OccursAt(s, sub, j)
    decreases |s|
  {
    if StartsWith(s, sub) then
      assert s[0..|sub|] == s[..|sub|];
      Some(0)
    else if |s| == 0 then None
    else
      assert |sub| <= |s| ==> s[0..|sub|] == s[..|sub|];
      OccursAtTail(s, sub);
      match IndexOf(s[1..], sub)
      case None => None
      case Some(k) => Some(k + 1)
  }

  /** `s.includes(sub)`. */
  predicate Contains(s: string, sub: string) {
    IndexOf(s, sub).Some?
  }

  lemma ContainsIff(s: string, sub: string)
    ensures Contains(s, sub) <==> exists i :: OccursAt(s, sub, i)
  {
  }

  /** Whatever surrounds it, a piece is contained in the text built around it. */
  lemma ContainsInfix(a: string, sub: string, b: string)
    ensures Contains(a + sub + b, sub)
  {
    assert (a + sub + b)[|a|..|a| + |sub|] == sub;
    assert OccursAt(a + sub + b, sub, |a|);
  }

  /** Containment survives adding text on either side. */
  lemma ContainsExtend(s: string, sub: string, a: string, b: string)
    requires Contains(s, sub)
    ensures Contains(a + s + b, sub)
  {
    var i := IndexOf(s, sub).value;
    assert (a + s + b)[|a| + i..|a| + i + |sub|] == s[i..i + |sub|];
    assert OccursAt(a + s + b, sub, |a| + i);
  }

  /** Containment is transitive. */
  lemma ContainsTransitive(s: string, mid: string, sub: string)
    requires Contains(s, mid) && Contains(mid, sub)
    ensures Contains(s, sub)
  {
    var i := IndexOf(s, mid).value;
    var j := IndexOf(mid, sub).value;
    assert OccursAt(mid, sub, j) && OccursAt(s, mid, i);
    forall k | 0 <= k < |sub|
      ensures s[i + j + k] == sub[k]
    {
      assert sub[k] == mid[j..j + |sub|][k] == mid[j + k];
      assert mid[j + k] == s[i..i + |mid|][j + k] == s[i + j + k];
    }
    assert s[i + j..i + j + |sub|] == sub;
    assert OccursAt(s, sub, i + j);
  }

  /** Every character of a contained piece is a character of the text. */
  lemma ContainsChars(s: string, sub: string)
    requires Contains(s, sub)
    ensures forall c :: c in sub ==> c in s
  {
    var i := IndexOf(s, sub).value;
    forall c | c in sub
      ensures c in s
    {
      var k :| 0 <= k < |sub| && sub[k] == c;
      assert s[i..i + |sub|][k] == s[i + k];
    }
  }

  /** Text built around two pieces with the same surroundings is equal only if the pieces are. */
  lemma CancelAround(a: string, x: string, y: string, b: string)
    requires a + x + b == a + y + b
    ensures x == y
  {
    var s := a + x + b;
    assert |x| == |y|;
    assert x == s[|a|..|a| + |x|];
    assert y == (a + y + b)[|a|..|a| + |y|];
  }

  /** A prefix is contained. */
  lemma StartsWithContains(s: string, prefix: string)
    requires StartsWith(s, prefix)
    ensures Contains(s, prefix)
  {
    assert s[0..|prefix|] == s[..|prefix|];
    assert OccursAt(s, prefix, 0);
  }

  lemma StartsWithTransitive(s: string, p: string, q: string)
    requires StartsWith(s, p) && StartsWith(p, q)
    ensures StartsWith(s, q)
  {
    assert s[..|q|] == s[..|p|][..|q|];
  }

  /** A text containing `sub` holds each of its characters. */
  lemma ContainedCharIn(s: string, sub: string, k: int)
    requires 0 <= k < |sub|
    ensures Contains(s, sub) ==> sub[k] in s
  {
    if Contains(s, sub) {
      ContainsChars(s, sub);
      assert sub[k] in sub;
    }
  }

  /** Containing a one-character text is containing the character. */
  lemma ContainsChar(s: string, c: char)
    ensures Contains(s, [c]) <==> c in s
  {
    if c in s {
      var i :| 0 <= i < |s| && s[i] == c;
      assert s[i..i + 1] == [c];
      assert OccursAt(s, [c], i);
    }
    if Contains(s, [c]) {
      ContainsChars(s, [c]);
    }
  }

  /** `s.replace(pat, rep)` with a string pattern: only the first occurrence is replaced. */
  function ReplaceFirst(s: string, pat: string, rep: string): (r: string)
    ensures (forall j :: !OccursAt(s, pat, j)) ==> r == s
    ensures forall i :: OccursAt(s, pat, i) && (forall j :: 0 <= j < i ==> !OccursAt(s, pat, j)) ==>
              r == s[..i] + rep + s[i + |pat|..]
  {
    match IndexOf(s, pat)
    case None => s
    case Some(i) => s[..i] + rep + s[i + |pat|..]
  }

  /** `s.split(sep)` for a one-character separator. */
  function Split(s: string, sep: char): (parts: seq<string>)
    ensures |parts| >= 1
    ensures forall k :: 0 <= k < |parts| ==> sep !in parts[k]
    decreases |s|
  {
    if |s| == 0 then [""]
    else
      var rest := Split(s[1..], sep);
      if s[0] == sep then [""] + rest
      else [[s[0]] + rest[0]] + rest[1..]
  }

  /** `parts.join(sep)`. */
  function Join(parts: seq<string>, sep: string): string
    decreases |parts|
  {
    if |parts| == 0 then ""
    else if |parts| == 1 then parts[0]
    else parts[0] + sep + Join(parts[1..], sep)
  }

  /** Joining after a push: how the loops that push onto an array and join it later see it. */
  lemma {:induction false} JoinSnoc(parts: seq<string>, p: string, sep: string)
    ensures Join(parts + [p], sep) == if |parts| == 0 then p else Join(parts, sep) + sep + p
    decreases |parts|
  {
    if |parts| == 1 {
      assert (parts + [p])[1..] == [p];
    } else if |parts| > 1 {
      assert (parts + [p])[1..] == parts[1..] + [p];
      JoinSnoc(parts[1..], p, sep);
    }
  }

  /** Splitting and joining back on the same separator gives the text back. */
  lemma {:induction false} SplitJoin(s: string, sep: char)
    ensures Join(Split(s, sep), [sep]) == s
    decreases |s|
  {
    if |s| > 0 {
      var rest := Split(s[1..], sep);
      SplitJoin(s[1..], sep);
      if s[0] == sep {
        assert ([""] + rest)[1..] == rest;
        assert s == [sep] + s[1..];
      } else if |rest| == 1 {
        assert s == [s[0]] + s[1..];
      } else {
        var parts := [[s[0]] + rest[0]] + rest[1..];
        assert parts[1..] == rest[1..];
        assert s == [s[0]] + s[1..];
      }
    }
  }

  /** Splitting `a<sep>b` splits `a` and `b` separately. */
  lemma {:induction false} SplitConcat(a: string, b: string, sep: char)
    ensures Split(a + [sep] + b, sep) == Split(a, sep) + Split(b, sep)
    decreases |a|
  {
    var s := a + [sep] + b;
    if |a| == 0 {
      assert s[1..] == b;
    } else {
      assert s[1..] == a[1..] + [sep] + b;
      SplitConcat(a[1..], b, sep);
    }
  }

  /** Text without the separator is one part. */
  lemma {:induction false} SplitNoSeparator(s: string, sep: char)
    requires sep !in s
    ensures Split(s, sep) == [s]
    decreases |s|
  {
    if |s| > 0 {
      SplitNoSeparator(s[1..], sep);
      assert s == [s[0]] + s[1..];
    }
  }

  /** Each part is contained in the joined text. */
  lemma {:induction false} JoinContainsPart(parts: seq<string>, sep: string, k: int)
    requires 0 <= k < |parts|
    ensures Contains(Join(parts, sep), parts[k])
    decreases |parts|
  {
    if |parts| == 1 {
      ContainsInfix("", parts[0], "");
      assert "" + parts[0] + "" == parts[0];
    } else if k == 0 {
      ContainsInfix("", parts[0], sep + Join(parts[1..], sep));
      assert "" + parts[0] + (sep + Join(parts[1..], sep)) == Join(parts, sep);
    } else {
      JoinContainsPart(parts[1..], sep, k - 1);
      ContainsExtend(Join(parts[1..], sep), parts[k], parts[0] + sep, "");
      assert parts[0] + sep + Join(parts[1..], sep) + "" == Join(parts, sep);
    }
  }

  /** A character that is not in the separator is in the joined text iff it is in one of the parts. */
  lemma {:induction false} JoinHasChar(parts: seq<string>, sep: string, c: char)
    requires c !in sep
    ensures c in Join(parts, sep) <==> exists k :: 0 <= k < |parts| && c in parts[k]
    decreases |parts|
  {
    if |parts| > 1 {
      JoinHasChar(parts[1..], sep, c);
      if c in Join(parts[1..], sep) {
        var k :| 0 <= k < |parts[1..]| && c in parts[1..][k];
        assert c in parts[k + 1];
      }
      if exists k :: 1 <= k < |parts| && c in parts[k] {
        var k :| 1 <= k < |parts| && c in parts[k];
        assert c in parts[1..][k - 1];
      }
    }
  }

  /** JavaScript's white space and line terminators, which `trim` removes. */
  predicate IsSpace(c: char) {
    c == '\t' || c == '\n' || c == '\U{000B}' || c == '\U{000C}' || c == '\r' || c == ' '
    || c == '\U{00A0}' || c == '\U{1680}' || ('\U{2000}' <= c <= '\U{200A}')
    || c == '\U{2028}' || c == '\U{2029}' || c == '\U{202F}' || c == '\U{205F}'
    || c == '\U{3000}' || c == '\U{FEFF}'
  }

  function TrimStart(s: string): (r: string)
    ensures |r| <= |s| && r == s[|s| - |r|..]
    ensures forall i :: 0 <= i < |s| - |r| ==> IsSpace(s[i])
    ensures |r| > 0 ==> !IsSpace(r[0])
    decreases |s|
  {
    if |s| > 0 && IsSpace(s[0]) then TrimStart(s[1..]) else s
  }

  function TrimEnd(s: string): (r: string)
    ensures |r| <= |s| && r == s[..|r|]
    ensures forall i :: |r| <= i < |s| ==> IsSpace(s[i])
    ensures |r| > 0 ==> !IsSpace(r[|r| - 1])
    decreases |s|
  {
    if |s| > 0 && IsSpace(s[|s| - 1]) then TrimEnd(s[..|s| - 1]) else s
  }

  /** `s.trim()`. */
  function Trim(s: string): string {
    TrimEnd(TrimStart(s))
  }

  /** Trimming leaves nothing exactly when the text is white space only. */
  lemma {:induction false} TrimEmptyIff(s: string)
    ensures Trim(s) == "" <==> forall i :: 0 <= i < |s| ==> IsSpace(s[i])
    decreases |s|
  {
    if |s| > 0 && IsSpace(s[0]) {
      assert Trim(s) == Trim(s[1..]);
      TrimEmptyIff(s[1..]);
      AllSpaceTail(s);
    } else if |s| > 0 {
      assert TrimStart(s) == s;
      assert Trim(s) != "";
    }
  }

  lemma AllSpaceTail(s: string)
    requires |s| > 0
    ensures (forall i :: 0 <= i < |s| ==> IsSpace(s[i])) <==> IsSpace(s[0]) && forall i :: 0 <= i < |s[1..]| ==> IsSpace(s[1..][i])
  {
    if IsSpace(s[0]) && forall i :: 0 <= i < |s[1..]| ==> IsSpace(s[1..][i]) {
      forall i | 1 <= i < |s|
        ensures IsSpace(s[i])
      {
        assert s[i] == s[1..][i - 1];
      }
    }
  }

  /** Number of occurrences of a character. */
  function CountChar(s: string, c: char): nat
    decreases |s|
  {
    if |s| == 0 then 0 else (if s[0] == c then 1 else 0) + CountChar(s[1..], c)
  }

  lemma {:induction false} CountCharAppend(a: string, b: string, c: char)
    ensures CountChar(a + b, c) == CountChar(a, c) + CountChar(b, c)
    decreases |a|
  {
    if |a| == 0 {
      assert a + b == b;
    } else {
      assert (a + b)[0] == a[0];
      assert (a + b)[1..] == a[1..] + b;
      assert CountChar(a + b, c) == (if a[0] == c then 1 else 0) + CountChar(a[1..] + b, c);
      CountCharAppend(a[1..], b, c);
    }
  }

  lemma {:induction false} CountCharAbsent(s: string, c: char)
    requires c !in s
    ensures CountChar(s, c) == 0
    decreases |s|
  {
    if |s| > 0 {
      CountCharAbsent(s[1..], c);
    }
  }

  lemma AppendAssoc(a: string, b: string, c: string)
    ensures a + b + c == a + (b + c)
  {
  }

  lemma AppendEmpty(a: string)
    ensures a + "" == a && "" + a == a
  {
  }

  /** The text an append loop builds: `f(x)` for each element, in order. */
  function ConcatMap<T, U>(xs: seq<T>, f: T -> seq<U>): seq<U>
    decreases |xs|
  {
    if |xs| == 0 then [] else ConcatMap(xs[..|xs| - 1], f) + f(xs[|xs| - 1])
  }

  lemma ConcatMapSnoc<T, U>(xs: seq<T>, x: T, f: T -> seq<U>)
    ensures ConcatMap(xs + [x], f) == ConcatMap(xs, f) + f(x)
  {
    assert (xs + [x])[..|xs|] == xs;
  }

  /** Mapping distributes over concatenation of the inputs. */
  lemma {:induction false} ConcatMapConcat<T, U>(xs: seq<T>, ys: seq<T>, f: T -> seq<U>)
    ensures ConcatMap(xs + ys, f) == ConcatMap(xs, f) + ConcatMap(ys, f)
    decreases |ys|
  {
    if |ys| == 0 {
      assert xs + ys == xs;
    } else {
      var y0, y := ys[..|ys| - 1], ys[|ys| - 1];
      assert xs + ys == (xs + y0) + [y];
      ConcatMapConcat(xs, y0, f);
      ConcatMapSnoc(xs + y0, y, f);
      assert ConcatMap(ys, f) == ConcatMap(y0, f) + f(y);
    }
  }

  /** An element of the concatenation comes from the piece of some input. */
  lemma {:induction false} ConcatMapMember<T, U>(xs: seq<T>, f: T -> seq<U>, u: U)
    ensures u in ConcatMap(xs, f) <==> exists j :: 0 <= j < |xs| && u in f(xs[j])
    decreases |xs|
  {
    if |xs| > 0 {
      var init, x := xs[..|xs| - 1], xs[|xs| - 1];
      ConcatMapMember(init, f, u);
      if u in ConcatMap(xs, f) && u in ConcatMap(init, f) {
        var j :| 0 <= j < |init| && u in f(init[j]);
        assert xs[j] == init[j];
      }
      if exists j :: 0 <= j < |xs| && u in f(xs[j]) {
        var j :| 0 <= j < |xs| && u in f(xs[j]);
        if j < |init| {
          assert init[j] == xs[j];
        }
      }
    }
  }

  /** Each element's piece occurs in the concatenation. */
  lemma {:induction false} ConcatMapContains<T>(xs: seq<T>, f: T -> string, i: int)
    requires 0 <= i < |xs|
    ensures Contains(ConcatMap(xs, f), f(xs[i]))
    decreases |xs|
  {
    var init := xs[..|xs| - 1];
    AppendEmpty(ConcatMap(xs, f));
    if i == |xs| - 1 {
      ContainsInfix(ConcatMap(init, f), f(xs[i]), "");
    } else {
      assert init[i] == xs[i];
      ConcatMapContains(init, f, i);
      ContainsExtend(ConcatMap(init, f), f(xs[i]), "", f(xs[|xs| - 1]));
      AppendEmpty(ConcatMap(init, f));
    }
  }

}
