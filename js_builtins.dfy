/**
 * The JavaScript built-ins the extension leans on, stated over `string`
 * (a sequence of Unicode scalar values) and `seq`: `String.prototype.trim`,
 * `String.prototype.includes`, `Array.prototype.filter` and
 * `Array.prototype.join(" ")`.
 */
module JsBuiltins {

  /**
   * The code points `String.prototype.trim` strips: ECMAScript's WhiteSpace
   * (TAB, VT, FF, SP, NBSP, ZWNBSP and every other space separator of
   * category Zs) and LineTerminator (LF, CR, LS, PS).
   */
  predicate IsWhitespace(c: char) {
    c == '\t' || c == '\n' || c == '\U{000B}' || c == '\U{000C}' || c == '\r' ||
    c == ' ' || c == '\U{00A0}' || c == '\U{1680}' ||
    ('\U{2000}' <= c <= '\U{200A}') ||
    c == '\U{2028}' || c == '\U{2029}' || c == '\U{202F}' || c == '\U{205F}' ||
    c == '\U{3000}' || c == '\U{FEFF}'
  }

  predicate AllWhitespace(s: string) {
    forall i :: 0 <= i < |s| ==> IsWhitespace(s[i])
  }

  /** `s` with its leading whitespace removed: a suffix of `s`. */
  function TrimStart(s: string): (r: string)
    ensures |r| <= |s| && r == s[|s| - |r|..]
    ensures AllWhitespace(s[..|s| - |r|])
    ensures r == [] || !IsWhitespace(r[0])
  {
    if s != [] && IsWhitespace(s[0]) then TrimStart(s[1..]) else s
  }

  /** `s` with its trailing whitespace removed: a prefix of `s`. */
  function TrimEnd(s: string): (r: string)
    ensures |r| <= |s| && r == s[..|r|]
    ensures AllWhitespace(s[|r|..])
    ensures r == [] || !IsWhitespace(r[|r| - 1])
  {
    if s != [] && IsWhitespace(s[|s| - 1]) then TrimEnd(s[..|s| - 1]) else s
  }

  /** `String.prototype.trim`: `s` without the whitespace at either end. */
  function Trim(s: string): (r: string)
    ensures |r| <= |s|
    ensures r == [] || (!IsWhitespace(r[0]) && !IsWhitespace(r[|r| - 1]))
  {
    TrimEnd(TrimStart(s))
  }

  /** Dropping a whitespace prefix that stops at a non-whitespace character is what TrimStart does. */
  lemma {:induction false} TrimStartUnique(s: string, before: string, rest: string)
    requires s == before + rest && AllWhitespace(before)
    requires rest == [] || !IsWhitespace(rest[0])
    ensures TrimStart(s) == rest
  {
    if before != [] {
      assert s[0] == before[0];
      assert s[1..] == before[1..] + rest;
      TrimStartUnique(s[1..], before[1..], rest);
    }
  }

  /** Dropping a whitespace suffix that follows a non-whitespace character is what TrimEnd does. */
  lemma {:induction false} TrimEndUnique(s: string, rest: string, after: string)
    requires s == rest + after && AllWhitespace(after)
    requires rest == [] || !IsWhitespace(rest[|rest| - 1])
    ensures TrimEnd(s) == rest
  {
    if after != [] {
      assert s[|s| - 1] == after[|after| - 1];
      assert s[..|s| - 1] == rest + after[..|after| - 1];
      TrimEndUnique(s[..|s| - 1], rest, after[..|after| - 1]);
    }
  }

  /**
   * Trim is the only way to cut `s` into whitespace, a core that neither
   * starts nor ends with whitespace, and whitespace.
   */
  lemma TrimUnique(s: string, before: string, core: string, after: string)
    requires s == before + core + after
    requires AllWhitespace(before) && AllWhitespace(after)
    requires core == [] || (!IsWhitespace(core[0]) && !IsWhitespace(core[|core| - 1]))
    ensures Trim(s) == core
  {
    if core == [] {
      assert s == (before + after) + [];
      TrimStartUnique(s, before + after, []);
    } else {
      assert s == before + (core + after);
      TrimStartUnique(s, before, core + after);
      TrimEndUnique(core + after, core, after);
    }
  }

  /** Trimming twice changes nothing more than trimming once. */
  lemma TrimIdempotent(s: string)
    ensures Trim(Trim(s)) == Trim(s)
  {
    var t := Trim(s);
    assert TrimStart(t) == t;
    assert TrimEnd(t) == t;
  }

  /** `parts.join(" ")`: the parts in order, one space between neighbours. */
  function JoinSpace(parts: seq<string>): (r: string)
    ensures |parts| >= 1 ==> |parts[0]| <= |r| && r[..|parts[0]|] == parts[0]
    ensures |parts| >= 2 ==> |r| > |parts[0]| && r[|parts[0]|] == ' '
  {
    if |parts| == 0 then ""
    else if |parts| == 1 then parts[0]
    else parts[0] + " " + JoinSpace(parts[1..])
  }

  /** The total number of characters in `parts`. */
  function TotalLength(parts: seq<string>): nat {
    if parts == [] then 0 else |parts[0]| + TotalLength(parts[1..])
  }

  /** The joined text holds every character of every part plus one separator between neighbours. */
  lemma {:induction false} JoinSpaceLength(parts: seq<string>)
    requires parts != []
    ensures |JoinSpace(parts)| == TotalLength(parts) + |parts| - 1
  {
    if |parts| > 1 {
      JoinSpaceLength(parts[1..]);
    }
  }

  /**
   * Appending a part appends a space and that part, verbatim: the
   * left-to-right definition of `Array.prototype.join`.
   */
  lemma {:induction false} JoinSpaceSnoc(parts: seq<string>, p: string)
    requires parts != []
    ensures JoinSpace(parts + [p]) == JoinSpace(parts) + " " + p
  {
    if |parts| == 1 {
      assert parts + [p] == [parts[0], p];
    } else {
      assert (parts + [p])[1..] == parts[1..] + [p];
      JoinSpaceSnoc(parts[1..], p);
    }
  }

  /**
   * The join of a sequence is the join of any nonempty prefix, one space,
   * and the join of the rest: the parts keep their order and nothing but a
   * single space separates them.
   */
  lemma {:induction false} JoinSpaceSplit(parts: seq<string>, k: nat)
    requires 0 < k < |parts|
    ensures JoinSpace(parts) == JoinSpace(parts[..k]) + " " + JoinSpace(parts[k..])
  {
    if k == 1 {
      assert parts[..1] == [parts[0]];
    } else {
      JoinSpaceSplit(parts[1..], k - 1);
      assert parts[1..][..k - 1] == parts[..k][1..];
      assert parts[1..][k - 1..] == parts[k..];
    }
  }

  /** The join is empty exactly when there is no part or a single empty one. */
  lemma JoinSpaceEmpty(parts: seq<string>)
    ensures JoinSpace(parts) == "" <==> (parts == [] || parts == [""])
  {
  }

  /** `s.includes(sub)`: `sub` occurs in `s` at some position. */
  predicate Contains(s: string, sub: string) {
    exists i :: 0 <= i <= |s| && sub <= s[i..]
  }

  /** `xs.filter(keep)`: the elements that pass `keep`, in their order. */
  function Filter<T>(xs: seq<T>, keep: T -> bool): (kept: seq<T>)
    ensures |kept| <= |xs|
    ensures forall x :: x in kept ==> x in xs && keep(x)
  {
    if xs == [] then []
    else if keep(xs[0]) then [xs[0]] + Filter(xs[1..], keep)
    else Filter(xs[1..], keep)
  }

  /** The positions, counted from `base`, of the elements that pass `keep`. */
  function PassingPositions<T>(xs: seq<T>, keep: T -> bool, base: nat): (idx: seq<nat>)
    ensures forall k :: 0 <= k < |idx| ==> base <= idx[k] < base + |xs|
  {
    if xs == [] then []
    else (if keep(xs[0]) then [base] else []) + PassingPositions(xs[1..], keep, base + 1)
  }

  /** PassingPositions lists positions in strictly increasing order. */
  lemma {:induction false} PassingPositionsIncreasing<T>(xs: seq<T>, keep: T -> bool, base: nat, k: nat, l: nat)
    requires k < l < |PassingPositions(xs, keep, base)|
    ensures PassingPositions(xs, keep, base)[k] < PassingPositions(xs, keep, base)[l]
  {
    var rest := PassingPositions(xs[1..], keep, base + 1);
    if keep(xs[0]) {
      assert PassingPositions(xs, keep, base) == [base] + rest;
      if k > 0 {
        PassingPositionsIncreasing(xs[1..], keep, base + 1, k - 1, l - 1);
      }
    } else {
      assert PassingPositions(xs, keep, base) == rest;
      PassingPositionsIncreasing(xs[1..], keep, base + 1, k, l);
    }
  }

  /** A position is listed by PassingPositions exactly when its element passes. */
  lemma {:induction false} PassingPositionsExact<T>(xs: seq<T>, keep: T -> bool, base: nat, i: nat)
    requires i < |xs|
    ensures keep(xs[i]) <==> base + i in PassingPositions(xs, keep, base)
  {
    var rest := PassingPositions(xs[1..], keep, base + 1);
    if i > 0 {
      PassingPositionsExact(xs[1..], keep, base + 1, i - 1);
      assert xs[1..][i - 1] == xs[i];
    } else {
      assert base !in rest;
    }
  }

  /** Filter keeps as many elements as PassingPositions lists. */
  lemma {:induction false} FilterLength<T>(xs: seq<T>, keep: T -> bool, base: nat)
    ensures |Filter(xs, keep)| == |PassingPositions(xs, keep, base)|
  {
    if xs != [] {
      FilterLength(xs[1..], keep, base + 1);
    }
  }

  /**
   * Filter selects: element k of its result is, verbatim, the element at the
   * k-th position PassingPositions lists.
   */
  lemma {:induction false} FilterSelects<T>(xs: seq<T>, keep: T -> bool, base: nat, k: nat)
    requires k < |PassingPositions(xs, keep, base)|
    ensures k < |Filter(xs, keep)|
    ensures Filter(xs, keep)[k] == xs[PassingPositions(xs, keep, base)[k] - base]
  {
    FilterLength(xs, keep, base);
    var rest := PassingPositions(xs[1..], keep, base + 1);
    FilterLength(xs[1..], keep, base + 1);
    var tail := Filter(xs[1..], keep);
    if keep(xs[0]) {
      assert Filter(xs, keep) == [xs[0]] + tail;
      assert PassingPositions(xs, keep, base) == [base] + rest;
      if k > 0 {
        FilterSelects(xs[1..], keep, base + 1, k - 1);
      }
    } else {
      assert Filter(xs, keep) == tail;
      assert PassingPositions(xs, keep, base) == rest;
      FilterSelects(xs[1..], keep, base + 1, k);
    }
  }

  /**
   * `kept` is `xs` at the strictly increasing positions `idx`, and a
   * position is on `idx` exactly when its element passes `keep`.
   */
  ghost predicate SelectsAt<T>(xs: seq<T>, keep: T -> bool, kept: seq<T>, idx: seq<nat>) {
    |idx| == |kept| &&
    (forall k :: 0 <= k < |idx| ==> idx[k] < |xs| && kept[k] == xs[idx[k]]) &&
    (forall k, l :: 0 <= k < l < |idx| ==> idx[k] < idx[l]) &&
    (forall i :: 0 <= i < |xs| ==> (keep(xs[i]) <==> i in idx))
  }

  /**
   * Filter keeps, verbatim and in order, exactly the elements that pass:
   * its result is the subsequence of `xs` at a strictly increasing list of
   * positions, and a position is on that list exactly when its element passes.
   */
  lemma FilterIsSubsequence<T>(xs: seq<T>, keep: T -> bool)
    ensures exists idx: seq<nat> :: SelectsAt(xs, keep, Filter(xs, keep), idx)
  {
    var idx := PassingPositions(xs, keep, 0);
    var kept := Filter(xs, keep);
    FilterLength(xs, keep, 0);
    forall k | 0 <= k < |idx|
      ensures kept[k] == xs[idx[k]]
    {
      FilterSelects(xs, keep, 0, k);
    }
    forall k, l | 0 <= k < l < |idx|
      ensures idx[k] < idx[l]
    {
      PassingPositionsIncreasing(xs, keep, 0, k, l);
    }
    forall i | 0 <= i < |xs|
      ensures keep(xs[i]) <==> i in idx
    {
      PassingPositionsExact(xs, keep, 0, i);
    }
    assert SelectsAt(xs, keep, kept, idx);
  }

  /** Filtering with a test nothing passes leaves nothing. */
  lemma {:induction false} FilterNone<T>(xs: seq<T>, keep: T -> bool)
    requires forall i :: 0 <= i < |xs| ==> !keep(xs[i])
    ensures Filter(xs, keep) == []
  {
    if xs != [] {
      FilterNone(xs[1..], keep);
    }
  }
}
