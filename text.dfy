/**
 * The JavaScript string built-ins the two parsers call: `toLowerCase`,
 * `includes`, `trim`, `replace` with a string pattern and `replace` with a
 * global literal pattern.  Strings are sequences of UTF-16 code units in
 * JavaScript; here they are `seq<char>`, and every character the parsers
 * look at is in the Basic Multilingual Plane, so the two agree.
 */
module Text {
  import opened Wrappers

  /** The characters `\s` and `trim` treat as white space (WhiteSpace and LineTerminator of ECMAScript). */
  predicate IsSpace(c: char)
  {
    || c == ' ' || c == '\t' || c == '\n' || c == '\r'
    || c == '\U{000B}' || c == '\U{000C}' || c == '\U{00A0}' || c == '\U{1680}'
    || ('\U{2000}' <= c <= '\U{200A}')
    || c == '\U{2028}' || c == '\U{2029}' || c == '\U{202F}' || c == '\U{205F}'
    || c == '\U{3000}' || c == '\U{FEFF}'
  }

  /** Lower-casing of one character over the Latin and Cyrillic capitals. */
  function LowerChar(c: char): (d: char)
    ensures 'A' <= c <= 'Z' ==> d as int == c as int + 32
    ensures 'А' <= c <= 'Я' ==> d as int == c as int + 32
    ensures c == 'Ё' ==> d == 'ё'
    ensures !('A' <= c <= 'Z') && !('А' <= c <= 'Я') && c != 'Ё' ==> d == c
  {
    if 'A' <= c <= 'Z' || 'А' <= c <= 'Я' then (c as int + 32) as char
    else if c == 'Ё' then 'ё'
    else c
  }

  lemma LowerCharIdempotent(c: char)
    ensures LowerChar(LowerChar(c)) == LowerChar(c)
  {
  }

  /** `String.prototype.toLowerCase`. */
  function Lower(s: string): (r: string)
    ensures |r| == |s|
    ensures forall k :: 0 <= k < |s| ==> r[k] == LowerChar(s[k])
  {
    seq(|s|, k requires 0 <= k < |s| => LowerChar(s[k]))
  }

  /** One character of a pattern against one of the subject, with or without the `i` flag. */
  predicate SameChar(a: char, b: char, ignoreCase: bool)
  {
    if ignoreCase then LowerChar(a) == LowerChar(b) else a == b
  }

  /** The literal `p` occurs in `s` at index `i`. */
  predicate LiteralAt(s: string, i: nat, p: string, ignoreCase: bool)
  {
    && i + |p| <= |s|
    && forall k :: 0 <= k < |p| ==> SameChar(s[i + k], p[k], ignoreCase)
  }

  ghost predicate Occurs(s: string, p: string, ignoreCase: bool)
  {
    exists i: nat :: LiteralAt(s, i, p, ignoreCase)
  }

  /** `i` is the leftmost occurrence of `p` in `s`. */
  ghost predicate IsLeftmostLiteral(s: string, i: nat, p: string, ignoreCase: bool)
  {
    LiteralAt(s, i, p, ignoreCase) && forall i': nat :: i' < i ==> !LiteralAt(s, i', p, ignoreCase)
  }

  /** An occurrence cut out of its subject is an occurrence at the start of the piece. */
  lemma LiteralSlice(s: string, i: nat, p: string, ignoreCase: bool)
    requires LiteralAt(s, i, p, ignoreCase)
    ensures LiteralAt(s[i..i + |p|], 0, p, ignoreCase)
  {
    forall k | 0 <= k < |p| ensures SameChar(s[i..i + |p|][k], p[k], ignoreCase) {
      assert s[i..i + |p|][k] == s[i + k];
    }
  }

  lemma LiteralAtExact(s: string, i: nat, p: string)
    requires i + |p| <= |s|
    ensures LiteralAt(s, i, p, false) <==> s[i..i + |p|] == p
  {
    if LiteralAt(s, i, p, false) {
      assert forall k :: 0 <= k < |p| ==> s[i..i + |p|][k] == p[k];
    }
  }

  /** Leftmost occurrence of `p` at or after `from` (`indexOf`, or a search for a literal regular expression). */
  function IndexOf(s: string, p: string, ignoreCase: bool, from: nat): (r: Option<nat>)
    decreases |s| + 1 - from
    ensures r.Some? ==> from <= r.value && LiteralAt(s, r.value, p, ignoreCase)
    ensures r.Some? ==> forall i :: from <= i < r.value ==> !LiteralAt(s, i, p, ignoreCase)
    ensures r.None? ==> forall i :: from <= i ==> !LiteralAt(s, i, p, ignoreCase)
  {
    if from + |p| > |s| then None
    else if LiteralAt(s, from, p, ignoreCase) then Some(from)
    else IndexOf(s, p, ignoreCase, from + 1)
  }

  /** `String.prototype.includes`, which never ignores case. */
  function Includes(s: string, p: string): (b: bool)
    ensures b <==> Occurs(s, p, false)
  {
    IndexOf(s, p, false, 0).Some?
  }

  /**
   * `s.toLowerCase().includes(p)` for a lower-case `p` is an occurrence of
   * `p` in `s` ignoring case.
   */
  lemma IncludesLower(s: string, p: string)
    requires forall k :: 0 <= k < |p| ==> LowerChar(p[k]) == p[k]
    ensures Includes(Lower(s), p) <==> Occurs(s, p, true)
  {
    if Includes(Lower(s), p) {
      var i: nat :| LiteralAt(Lower(s), i, p, false);
      assert LiteralAt(s, i, p, true);
    }
    if Occurs(s, p, true) {
      var i: nat :| LiteralAt(s, i, p, true);
      forall k | 0 <= k < |p| ensures Lower(s)[i + k] == p[k] {
        LowerCharIdempotent(p[k]);
      }
      assert LiteralAt(Lower(s), i, p, false);
    }
  }

  /** Dropping white space from the front. */
  function TrimStart(s: string): (r: string)
    ensures |r| <= |s| && r == s[|s| - |r|..]
    ensures r == [] || !IsSpace(r[0])
    ensures forall k :: 0 <= k < |s| - |r| ==> IsSpace(s[k])
  {
    if s != [] && IsSpace(s[0]) then TrimStart(s[1..]) else s
  }

  /** Dropping white space from the back. */
  function TrimEnd(s: string): (r: string)
    ensures |r| <= |s| && r == s[..|r|]
    ensures r == [] || !IsSpace(r[|r| - 1])
    ensures forall k :: |r| <= k < |s| ==> IsSpace(s[k])
  {
    if s != [] && IsSpace(s[|s| - 1]) then TrimEnd(s[..|s| - 1]) else s
  }

  /** `r` is the part of `s` from index `a` on, with only white space around it. */
  ghost predicate TrimmedAt(r: string, s: string, a: nat)
  {
    && a + |r| <= |s|
    && r == s[a..a + |r|]
    && (forall k :: 0 <= k < a ==> IsSpace(s[k]))
    && (forall k :: a + |r| <= k < |s| ==> IsSpace(s[k]))
  }

  /** `r` is `s` with its leading and trailing white space removed. */
  ghost predicate IsTrimOf(r: string, s: string)
  {
    && (r == [] || (!IsSpace(r[0]) && !IsSpace(r[|r| - 1])))
    && exists a: nat :: TrimmedAt(r, s, a)
  }

  /** `String.prototype.trim`. */
  function Trim(s: string): (r: string)
    ensures |r| <= |s|
    ensures IsTrimOf(r, s)
  {
    var t := TrimStart(s);
    var r := TrimEnd(t);
    var a := |s| - |t|;
    assert r == s[a..a + |r|];
    assert forall k :: a + |r| <= k < |s| ==> s[k] == t[k - a];
    assert TrimmedAt(r, s, a);
    r
  }

  /** A string without white space at either end is its own trim. */
  lemma {:induction false} TrimUnchanged(s: string)
    requires s == [] || (!IsSpace(s[0]) && !IsSpace(s[|s| - 1]))
    ensures Trim(s) == s
  {
  }

  lemma TrimIdempotent(s: string)
    ensures Trim(Trim(s)) == Trim(s)
  {
    TrimUnchanged(Trim(s));
  }

  /** `t.replace(a, b)` with a one-character string pattern: only the first `a` becomes `b`. */
  function ReplaceFirstChar(t: string, a: char, b: char): (r: string)
    ensures |r| == |t|
    ensures forall k :: 0 <= k < |t| ==> r[k] == (if t[k] == a && a !in t[..k] then b else t[k])
  {
    if t == [] then []
    else if t[0] == a then
      var r := [b] + t[1..];
      forall k | 0 < k < |t| ensures a in t[..k] {
        assert t[..k][0] == a;
      }
      r
    else
      var rest := ReplaceFirstChar(t[1..], a, b);
      var r := [t[0]] + rest;
      forall k | 0 < k < |t| ensures r[k] == (if t[k] == a && a !in t[..k] then b else t[k]) {
        assert t[..k] == [t[0]] + t[1..][..k - 1];
        assert r[k] == rest[k - 1] && t[1..][k - 1] == t[k];
      }
      r
  }

  /**
   * `s.replace(/pat/g, rep)` (with `i` when `ignoreCase`) for a literal,
   * non-empty `pat`: every leftmost non-overlapping occurrence is replaced.
   */
  function ReplaceAll(s: string, pat: string, rep: string, ignoreCase: bool): (r: string)
    requires |pat| > 0
    decreases |s|
    ensures (forall i :: !LiteralAt(s, i, pat, ignoreCase)) ==> r == s
  {
    if |s| < |pat| then s
    else if LiteralAt(s, 0, pat, ignoreCase) then rep + ReplaceAll(s[|pat|..], pat, rep, ignoreCase)
    else
      assert forall i: nat :: LiteralAt(s[1..], i, pat, ignoreCase) ==> LiteralAt(s, i + 1, pat, ignoreCase);
      [s[0]] + ReplaceAll(s[1..], pat, rep, ignoreCase)
  }

  /** No character of `rep` matches a character of `w`. */
  predicate NoCommonChar(rep: string, w: string, ignoreCase: bool)
  {
    forall a, b :: 0 <= a < |rep| && 0 <= b < |w| ==> !SameChar(rep[a], w[b], ignoreCase)
  }

  /** An occurrence carries over to any string with the same characters at the same offsets. */
  lemma LiteralMoves(s: string, i: nat, t: string, j: nat, w: string, ignoreCase: bool)
    requires LiteralAt(s, i, w, ignoreCase) && j + |w| <= |t|
    requires t[j..j + |w|] == s[i..i + |w|]
    ensures LiteralAt(t, j, w, ignoreCase)
  {
    forall k | 0 <= k < |w| ensures SameChar(t[j + k], w[k], ignoreCase) {
      assert t[j + k] == t[j..j + |w|][k];
    }
  }

  /** A window of `p + s` that overlaps a non-empty `rep` placed between `p` and `s'` meets a character of `rep`. */
  lemma OverlapMeetsRep(p: string, rep: string, s': string, i: nat, w: string, ignoreCase: bool)
    requires NoCommonChar(rep, w, ignoreCase) && |rep| > 0 && |w| > 0
    requires i < |p| + |rep| && |p| < i + |w|
    ensures !LiteralAt(p + rep + s', i, w, ignoreCase)
  {
    var q := if i < |p| then |p| else i;
    var k := q - i;
    assert (p + rep + s')[i + k] == rep[q - |p|];
    assert !SameChar((p + rep + s')[i + k], w[k], ignoreCase);
  }

  /**
   * A global replacement whose replacement text shares no character with
   * `w` creates no occurrence of `w`, and removes every occurrence when `w`
   * is what it replaces.  `p` is the text already emitted in front of `s`;
   * no occurrence of `w` starts inside it.
   */
  lemma {:induction false} ReplaceAllAvoids(p: string, s: string, pat: string, rep: string, w: string, ignoreCase: bool)
    requires |pat| > 0 && |rep| > 0 && |w| > 0
    requires NoCommonChar(rep, w, ignoreCase)
    requires forall i: nat :: i < |p| ==> !LiteralAt(p + s, i, w, ignoreCase)
    requires pat == w || forall i: nat :: !LiteralAt(s, i, w, ignoreCase)
    ensures forall i: nat :: !LiteralAt(p + ReplaceAll(s, pat, rep, ignoreCase), i, w, ignoreCase)
    decreases |s|
  {
    if |s| < |pat| {
      forall i: nat | i >= |p| ensures !LiteralAt(p + s, i, w, ignoreCase) {
        if LiteralAt(p + s, i, w, ignoreCase) && pat != w {
          LiteralMoves(p + s, i, s, i - |p|, w, ignoreCase);
        }
      }
    } else if LiteralAt(s, 0, pat, ignoreCase) {
      ReplaceAllAvoidsMatch(p, s, pat, rep, w, ignoreCase);
    } else {
      ReplaceAllAvoidsSkip(p, s, pat, rep, w, ignoreCase);
    }
  }

  lemma {:induction false} ReplaceAllAvoidsMatch(p: string, s: string, pat: string, rep: string, w: string, ignoreCase: bool)
    requires |pat| > 0 && |rep| > 0 && |w| > 0 && |s| >= |pat| && LiteralAt(s, 0, pat, ignoreCase)
    requires NoCommonChar(rep, w, ignoreCase)
    requires forall i: nat :: i < |p| ==> !LiteralAt(p + s, i, w, ignoreCase)
    requires pat == w || forall i: nat :: !LiteralAt(s, i, w, ignoreCase)
    ensures forall i: nat :: !LiteralAt(p + ReplaceAll(s, pat, rep, ignoreCase), i, w, ignoreCase)
    decreases |s|, 0
  {
    var s' := s[|pat|..];
    var p' := p + rep;
    forall i: nat | i < |p'| ensures !LiteralAt(p' + s', i, w, ignoreCase) {
      if i + |w| <= |p| {
        if LiteralAt(p' + s', i, w, ignoreCase) {
          LiteralMoves(p' + s', i, p + s, i, w, ignoreCase);
        }
      } else {
        OverlapMeetsRep(p, rep, s', i, w, ignoreCase);
      }
    }
    if pat != w {
      forall i: nat | LiteralAt(s', i, w, ignoreCase) ensures false {
        LiteralMoves(s', i, s, i + |pat|, w, ignoreCase);
      }
    }
    ReplaceAllAvoids(p', s', pat, rep, w, ignoreCase);
    assert p' + ReplaceAll(s', pat, rep, ignoreCase) == p + ReplaceAll(s, pat, rep, ignoreCase);
  }

  lemma {:induction false} ReplaceAllAvoidsSkip(p: string, s: string, pat: string, rep: string, w: string, ignoreCase: bool)
    requires |pat| > 0 && |rep| > 0 && |w| > 0 && |s| >= |pat| && !LiteralAt(s, 0, pat, ignoreCase)
    requires NoCommonChar(rep, w, ignoreCase)
    requires forall i: nat :: i < |p| ==> !LiteralAt(p + s, i, w, ignoreCase)
    requires pat == w || forall i: nat :: !LiteralAt(s, i, w, ignoreCase)
    ensures forall i: nat :: !LiteralAt(p + ReplaceAll(s, pat, rep, ignoreCase), i, w, ignoreCase)
    decreases |s|, 0
  {
    var s' := s[1..];
    var p' := p + [s[0]];
    assert p' + s' == p + s;
    if LiteralAt(p + s, |p|, w, ignoreCase) {
      LiteralMoves(p + s, |p|, s, 0, w, ignoreCase);
    }
    if pat != w {
      forall i: nat | LiteralAt(s', i, w, ignoreCase) ensures false {
        LiteralMoves(s', i, s, i + 1, w, ignoreCase);
      }
    }
    ReplaceAllAvoids(p', s', pat, rep, w, ignoreCase);
    assert p' + ReplaceAll(s', pat, rep, ignoreCase) == p + ReplaceAll(s, pat, rep, ignoreCase);
  }

  /** JavaScript `v || d` on an optional string: `d` when `v` is absent or empty. */
  function OrElse(v: Option<string>, d: string): (r: string)
    ensures v.Some? && v.value != "" ==> r == v.value
    ensures v.None? || v.value == "" ==> r == d
  {
    if v.Some? && v.value != "" then v.value else d
  }
}
