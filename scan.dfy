/**
 * Building blocks for the hand-written regular-expression matchers.  A
 * JavaScript `String.prototype.match` without the `g` flag tries each start
 * position from the left and returns the first at which the pattern matches;
 * `FirstMatch` is that search, and each pattern supplies an anchored matcher
 * for one start position.  Every pattern modelled here joins character
 * classes that are pairwise disjoint, so a greedy quantifier never has to
 * give anything back and each anchored matcher is a straight scan.
 */
module Scan {
  import opened Wrappers
  import opened Text

  /** The character classes the parsers' patterns use. */
  datatype CharClass =
    | Digit           // \d
    | Space           // \s
    | SizeChar        // [\d,\.]
    | NumberChar      // [\d\-\.]
    | AlloyLetter     // [ХНТ] (Cyrillic)
    | AccuracyLetter  // [HГ] (Latin H, Cyrillic Г)

  predicate IsDigit(c: char)
  {
    '0' <= c <= '9'
  }

  predicate InClass(c: char, cls: CharClass)
  {
    match cls
    case Digit => IsDigit(c)
    case Space => IsSpace(c)
    case SizeChar => IsDigit(c) || c == ',' || c == '.'
    case NumberChar => IsDigit(c) || c == '-' || c == '.'
    case AlloyLetter => c == 'Х' || c == 'Н' || c == 'Т'
    case AccuracyLetter => c == 'H' || c == 'Г'
  }

  /** Every character of `s[lo..hi]` is in `cls`. */
  predicate AllIn(s: string, lo: nat, hi: nat, cls: CharClass)
  {
    lo <= hi <= |s| && forall k :: lo <= k < hi ==> InClass(s[k], cls)
  }

  /** End of the longest run of `cls` characters starting at `i`: what `cls+` or `cls*` consumes greedily. */
  function RunEnd(s: string, i: nat, cls: CharClass): (j: nat)
    requires i <= |s|
    decreases |s| - i
    ensures i <= j <= |s| && AllIn(s, i, j, cls)
    ensures j == |s| || !InClass(s[j], cls)
  {
    if i < |s| && InClass(s[i], cls) then RunEnd(s, i + 1, cls) else i
  }

  /** A run that cannot be extended is the greedy one. */
  lemma RunEndUnique(s: string, i: nat, j: nat, cls: CharClass)
    requires i <= j <= |s| && AllIn(s, i, j, cls) && (j == |s| || !InClass(s[j], cls))
    ensures j == RunEnd(s, i, cls)
  {
  }

  /** A run inside `r` stops at the same place when text starting with a character outside the class follows. */
  lemma {:induction false} RunEndAppend(r: string, t: string, i: nat, cls: CharClass)
    requires i <= |r| && |t| > 0 && !InClass(t[0], cls)
    decreases |r| - i
    ensures RunEnd(r + t, i, cls) == RunEnd(r, i, cls)
  {
    if i < |r| && InClass(r[i], cls) {
      assert (r + t)[i] == r[i];
      RunEndAppend(r, t, i + 1, cls);
    } else if i < |r| {
      assert (r + t)[i] == r[i];
    } else {
      assert (r + t)[i] == t[0];
    }
  }

  /**
   * The leftmost start position below `n`, at or after `from`, at which
   * the anchored matcher `m` succeeds, with what it matched.
   */
  function FirstMatch<T(==)>(n: nat, from: nat, m: nat -> Option<T>): (r: Option<(nat, T)>)
    decreases n - from
    ensures r.Some? ==> from <= r.value.0 < n && m(r.value.0) == Some(r.value.1)
    ensures r.Some? ==> forall i: nat :: from <= i < r.value.0 ==> m(i).None?
    ensures r.None? ==> forall i: nat :: from <= i < n ==> m(i).None?
  {
    if from >= n then None
    else if m(from).Some? then Some((from, m(from).value))
    else FirstMatch(n, from + 1, m)
  }

  // ---------------------------------------------------------------------
  // Standard references: (M1|M2|…)\s*([\d\-\.]+)
  // ---------------------------------------------------------------------

  /** Alternative `alt` of the marker group matched; the number group is `[numStart, numEnd)`. */
  datatype StandardHit = StandardHit(alt: nat, numStart: nat, numEnd: nat)

  /** `m\s*[\d\-\.]+` matches `s[i..e]` with the spaces ending at `w`. */
  ghost predicate IsStandardMatch(s: string, i: nat, m: string, ignoreCase: bool, w: nat, e: nat)
  {
    && LiteralAt(s, i, m, ignoreCase)
    && i + |m| <= w < e <= |s|
    && AllIn(s, i + |m|, w, Space)
    && AllIn(s, w, e, NumberChar)
  }

  /** `\s*([\d\-\.]+)` anchored at `j`. */
  function NumberAfter(s: string, j: nat): (r: Option<(nat, nat)>)
    requires j <= |s|
    ensures r.Some? ==> j <= r.value.0 < r.value.1 <= |s|
    ensures r.Some? ==> AllIn(s, j, r.value.0, Space) && AllIn(s, r.value.0, r.value.1, NumberChar)
    ensures r.Some? ==> r.value.1 == |s| || !InClass(s[r.value.1], NumberChar)
    ensures r.None? ==> forall w: nat, e: nat :: j <= w < e <= |s| && AllIn(s, j, w, Space) ==> !AllIn(s, w, e, NumberChar)
  {
    var w := RunEnd(s, j, Space);
    var e := RunEnd(s, w, NumberChar);
    if w < e then Some((w, e))
    else
      assert forall w': nat, e': nat :: j <= w' < e' <= |s| && AllIn(s, j, w', Space) && AllIn(s, w', e', NumberChar) ==> false by {
        forall w': nat, e': nat | j <= w' < e' <= |s| && AllIn(s, j, w', Space) && AllIn(s, w', e', NumberChar)
          ensures false
        {
          assert InClass(s[w'], NumberChar);
          RunEndUnique(s, j, w', Space);
        }
      }
      None
  }

  /** The alternatives `markers[a..]`, tried in order at start position `i`. */
  function StandardFrom(s: string, i: nat, markers: seq<string>, ignoreCase: bool, a: nat): (r: Option<StandardHit>)
    requires i <= |s|
    decreases |markers| - a
    ensures r.Some? ==> a <= r.value.alt < |markers|
    ensures r.Some? ==> IsStandardMatch(s, i, markers[r.value.alt], ignoreCase, r.value.numStart, r.value.numEnd)
    ensures r.Some? ==> r.value.numEnd == |s| || !InClass(s[r.value.numEnd], NumberChar)
    ensures r.Some? ==> forall b: nat, w: nat, e: nat :: a <= b < r.value.alt ==> !IsStandardMatch(s, i, markers[b], ignoreCase, w, e)
    ensures r.None? ==> forall b: nat, w: nat, e: nat :: a <= b < |markers| ==> !IsStandardMatch(s, i, markers[b], ignoreCase, w, e)
  {
    if a >= |markers| then None
    else
      var m := markers[a];
      var tail := if LiteralAt(s, i, m, ignoreCase) then NumberAfter(s, i + |m|) else None;
      match tail
      case Some((w, e)) => Some(StandardHit(a, w, e))
      case None => StandardFrom(s, i, markers, ignoreCase, a + 1)
  }

  /** The marker group anchored at `i`. */
  function StandardAt(s: string, i: nat, markers: seq<string>, ignoreCase: bool): (r: Option<StandardHit>)
    ensures r.Some? ==> i <= |s| && r.value.alt < |markers|
    ensures r.Some? ==> IsStandardMatch(s, i, markers[r.value.alt], ignoreCase, r.value.numStart, r.value.numEnd)
    ensures r.Some? ==> r.value.numEnd == |s| || !InClass(s[r.value.numEnd], NumberChar)
    ensures r.Some? ==> forall b: nat, w: nat, e: nat :: b < r.value.alt ==> !IsStandardMatch(s, i, markers[b], ignoreCase, w, e)
    ensures r.None? ==> forall b: nat, w: nat, e: nat :: b < |markers| ==> !IsStandardMatch(s, i, markers[b], ignoreCase, w, e)
  {
    if i > |s| then None else StandardFrom(s, i, markers, ignoreCase, 0)
  }

  /** The match JavaScript returns: leftmost start, first alternative, greedy number. */
  ghost predicate IsLeftmostStandard(s: string, markers: seq<string>, ignoreCase: bool, i: nat, b: nat, w: nat, e: nat)
  {
    && b < |markers|
    && IsStandardMatch(s, i, markers[b], ignoreCase, w, e)
    && (e == |s| || !InClass(s[e], NumberChar))
    && (forall b': nat, w': nat, e': nat :: b' < b ==> !IsStandardMatch(s, i, markers[b'], ignoreCase, w', e'))
    && (forall i': nat, b': nat, w': nat, e': nat :: i' < i && b' < |markers| ==> !IsStandardMatch(s, i', markers[b'], ignoreCase, w', e'))
  }

  /** No alternative matches anywhere in `s`. */
  ghost predicate NoStandard(s: string, markers: seq<string>, ignoreCase: bool)
  {
    forall i: nat, b: nat, w: nat, e: nat :: b < |markers| ==> !IsStandardMatch(s, i, markers[b], ignoreCase, w, e)
  }

  /** `r` is the marker of the leftmost match as written in `s`, one space, and its number. */
  ghost predicate IsStandardText(s: string, markers: seq<string>, ignoreCase: bool, r: string)
  {
    exists i: nat, b: nat, w: nat, e: nat ::
      && IsLeftmostStandard(s, markers, ignoreCase, i, b, w, e)
      && r == s[i..i + |markers[b]|] + " " + s[w..e]
  }

  /**
   * `` match ? `${match[1]} ${match[2]}` : '' `` for the pattern
   * `(markers[0]|markers[1]|…)\s*([\d\-\.]+)`: the marker as written in the
   * subject, exactly one space, and the number.
   */
  function StandardText(s: string, markers: seq<string>, ignoreCase: bool): (r: string)
    ensures r == "" <==> NoStandard(s, markers, ignoreCase)
    ensures r != "" ==> IsStandardText(s, markers, ignoreCase, r)
  {
    var at := (i: nat) => StandardAt(s, i, markers, ignoreCase);
    match FirstMatch(|s| + 1, 0, at)
    case None =>
      forall i: nat, b: nat, w: nat, e: nat | b < |markers|
        ensures !IsStandardMatch(s, i, markers[b], ignoreCase, w, e)
      {
        if i <= |s| { assert at(i).None?; }
      }
      ""
    case Some((i, h)) =>
      var r := s[i..i + |markers[h.alt]|] + " " + s[h.numStart..h.numEnd];
      forall i': nat, b': nat, w': nat, e': nat | i' < i && b' < |markers|
        ensures !IsStandardMatch(s, i', markers[b'], ignoreCase, w', e')
      {
        assert at(i').None?;
      }
      assert IsLeftmostStandard(s, markers, ignoreCase, i, h.alt, h.numStart, h.numEnd);
      assert IsStandardText(s, markers, ignoreCase, r);
      assert !NoStandard(s, markers, ignoreCase) by {
        assert IsStandardMatch(s, i, markers[h.alt], ignoreCase, h.numStart, h.numEnd);
      }
      assert |r| > 0;
      r
  }

  lemma StandardMatchShift(s: string, i: nat, m: string, ignoreCase: bool, w: nat, e: nat)
    requires |s| > 0 && IsStandardMatch(s[1..], i, m, ignoreCase, w, e)
    ensures IsStandardMatch(s, i + 1, m, ignoreCase, w + 1, e + 1)
  {
  }

  /**
   * `s.replace(/m\s*[\d\-\.]+/g, rep)` (with `i` when `ignoreCase`): every
   * leftmost non-overlapping reference becomes `rep`.
   */
  function ReplaceStandards(s: string, m: string, rep: string, ignoreCase: bool): (r: string)
    requires |rep| <= |m| + 1
    decreases |s|
    ensures |r| <= |s|
    ensures (forall i: nat, w: nat, e: nat :: !IsStandardMatch(s, i, m, ignoreCase, w, e)) ==> r == s
  {
    if s == [] then []
    else
      match StandardAt(s, 0, [m], ignoreCase)
      case Some(h) =>
        assert h.alt == 0;
        rep + ReplaceStandards(s[h.numEnd..], m, rep, ignoreCase)
      case None =>
        assert (forall i: nat, w: nat, e: nat :: !IsStandardMatch(s, i, m, ignoreCase, w, e))
            ==> (forall i: nat, w: nat, e: nat :: !IsStandardMatch(s[1..], i, m, ignoreCase, w, e)) by {
          if forall i: nat, w: nat, e: nat :: !IsStandardMatch(s, i, m, ignoreCase, w, e) {
            forall i: nat, w: nat, e: nat | IsStandardMatch(s[1..], i, m, ignoreCase, w, e) ensures false {
              StandardMatchShift(s, i, m, ignoreCase, w, e);
            }
          }
        }
        [s[0]] + ReplaceStandards(s[1..], m, rep, ignoreCase)
  }

  /** The spaces and the greedy number after a marker are determined by where the marker starts. */
  lemma StandardMatchUnique(s: string, i: nat, m: string, ignoreCase: bool, w: nat, e: nat, w2: nat, e2: nat)
    requires IsStandardMatch(s, i, m, ignoreCase, w, e) && (e == |s| || !InClass(s[e], NumberChar))
    requires IsStandardMatch(s, i, m, ignoreCase, w2, e2) && (e2 == |s| || !InClass(s[e2], NumberChar))
    ensures w == w2 && e == e2
  {
    assert InClass(s[w], NumberChar) && InClass(s[w2], NumberChar);
    RunEndUnique(s, i + |m|, w, Space);
    RunEndUnique(s, i + |m|, w2, Space);
    RunEndUnique(s, w, e, NumberChar);
    RunEndUnique(s, w, e2, NumberChar);
  }

  /** A match one position in is a match of the text without its first character. */
  lemma StandardMatchUnshift(s: string, i: nat, m: string, ignoreCase: bool, w: nat, e: nat)
    requires 0 < i && IsStandardMatch(s, i, m, ignoreCase, w, e)
    ensures IsStandardMatch(s[1..], i - 1, m, ignoreCase, w - 1, e - 1)
  {
    var t := s[1..];
    forall k | 0 <= k < |m| ensures SameChar(t[i - 1 + k], m[k], ignoreCase) {
      assert t[i - 1 + k] == s[i + k];
    }
    forall k | i - 1 + |m| <= k < w - 1 ensures InClass(t[k], Space) {
      assert t[k] == s[k + 1];
    }
    forall k | w - 1 <= k < e - 1 ensures InClass(t[k], NumberChar) {
      assert t[k] == s[k + 1];
    }
  }

  /** A reference at the very start is replaced, and the replace carries on after it. */
  lemma ReplaceStandardsHere(s: string, m: string, rep: string, ignoreCase: bool, w: nat, e: nat)
    requires |rep| <= |m| + 1
    requires IsStandardMatch(s, 0, m, ignoreCase, w, e) && (e == |s| || !InClass(s[e], NumberChar))
    ensures ReplaceStandards(s, m, rep, ignoreCase) == rep + ReplaceStandards(s[e..], m, rep, ignoreCase)
  {
    assert IsStandardMatch(s, 0, [m][0], ignoreCase, w, e);
    var h := StandardAt(s, 0, [m], ignoreCase).value;
    StandardMatchUnique(s, 0, m, ignoreCase, h.numStart, h.numEnd, w, e);
  }

  /** With no reference at the start, the first character is kept and the rest is replaced. */
  lemma ReplaceStandardsKeeps(s: string, m: string, rep: string, ignoreCase: bool)
    requires |rep| <= |m| + 1 && |s| > 0
    requires forall w: nat, e: nat :: !IsStandardMatch(s, 0, m, ignoreCase, w, e)
    ensures ReplaceStandards(s, m, rep, ignoreCase) == [s[0]] + ReplaceStandards(s[1..], m, rep, ignoreCase)
  {
    assert StandardAt(s, 0, [m], ignoreCase).None?;
  }

  /** The leftmost reference of `s` at `i > 0` is the leftmost reference of `s[1..]` at `i - 1`. */
  lemma LeftmostStandardUnshift(s: string, m: string, ignoreCase: bool, i: nat, w: nat, e: nat)
    requires 0 < i && IsLeftmostStandard(s, [m], ignoreCase, i, 0, w, e)
    ensures IsLeftmostStandard(s[1..], [m], ignoreCase, i - 1, 0, w - 1, e - 1)
    ensures forall w': nat, e': nat :: !IsStandardMatch(s, 0, m, ignoreCase, w', e')
    ensures i <= e <= |s|
  {
    assert forall w': nat, e': nat :: !IsStandardMatch(s, 0, [m][0], ignoreCase, w', e');
    var t := s[1..];
    StandardMatchUnshift(s, i, m, ignoreCase, w, e);
    assert e - 1 == |t| || !InClass(t[e - 1], NumberChar) by {
      if e < |s| { assert t[e - 1] == s[e]; }
    }
    forall i': nat, b': nat, w': nat, e': nat | i' < i - 1 && b' < |[m]|
      ensures !IsStandardMatch(t, i', [m][b'], ignoreCase, w', e')
    {
      if IsStandardMatch(t, i', [m][b'], ignoreCase, w', e') {
        StandardMatchShift(s, i', m, ignoreCase, w', e');
      }
    }
  }

  /** The text algebra of one induction step: putting back the first character. */
  lemma ConsStep(s: string, i: nat, e: nat, rep: string, x: string, y: string)
    requires 0 < i <= e <= |s|
    requires x == s[1..][..i - 1] + rep + y
    ensures s[1..][e - 1..] == s[e..]
    ensures [s[0]] + x == s[..i] + rep + y
  {
    assert [s[0]] + s[1..][..i - 1] == s[..i];
  }

  /** One step of the induction: the replace of `s` from the replace of `s[1..]`, which has no reference at its start either. */
  lemma ReplaceStandardsStep(s: string, m: string, rep: string, ignoreCase: bool, i: nat, w: nat, e: nat)
    requires |rep| <= |m| + 1 && 0 < i
    requires IsLeftmostStandard(s, [m], ignoreCase, i, 0, w, e)
    requires ReplaceStandards(s[1..], m, rep, ignoreCase) == s[1..][..i - 1] + rep + ReplaceStandards(s[1..][e - 1..], m, rep, ignoreCase)
    ensures ReplaceStandards(s, m, rep, ignoreCase) == s[..i] + rep + ReplaceStandards(s[e..], m, rep, ignoreCase)
  {
    LeftmostStandardUnshift(s, m, ignoreCase, i, w, e);
    ReplaceStandardsKeeps(s, m, rep, ignoreCase);
    ConsStep(s, i, e, rep, ReplaceStandards(s[1..], m, rep, ignoreCase), ReplaceStandards(s[1..][e - 1..], m, rep, ignoreCase));
  }

  /** The induction base: the leftmost reference starts the text. */
  lemma ReplaceStandardsFirst(s: string, m: string, rep: string, ignoreCase: bool, w: nat, e: nat)
    requires |rep| <= |m| + 1
    requires IsLeftmostStandard(s, [m], ignoreCase, 0, 0, w, e)
    ensures ReplaceStandards(s, m, rep, ignoreCase) == s[..0] + rep + ReplaceStandards(s[e..], m, rep, ignoreCase)
  {
    assert IsStandardMatch(s, 0, [m][0], ignoreCase, w, e);
    ReplaceStandardsHere(s, m, rep, ignoreCase, w, e);
    assert s[..0] + rep == rep;
  }

  /**
   * The global replace keeps the text before the leftmost reference,
   * puts `rep` where that whole reference stood, and carries on after it.
   */
  lemma {:induction false} ReplaceStandardsAt(s: string, m: string, rep: string, ignoreCase: bool, i: nat, w: nat, e: nat)
    requires |rep| <= |m| + 1
    requires IsLeftmostStandard(s, [m], ignoreCase, i, 0, w, e)
    decreases i, 1
    ensures ReplaceStandards(s, m, rep, ignoreCase) == s[..i] + rep + ReplaceStandards(s[e..], m, rep, ignoreCase)
  {
    if i == 0 {
      ReplaceStandardsFirst(s, m, rep, ignoreCase, w, e);
    } else {
      ReplaceStandardsLater(s, m, rep, ignoreCase, i, w, e);
    }
  }

  /** The induction step: a leftmost reference further in is one position nearer in `s[1..]`. */
  lemma {:induction false} ReplaceStandardsLater(s: string, m: string, rep: string, ignoreCase: bool, i: nat, w: nat, e: nat)
    requires |rep| <= |m| + 1 && 0 < i
    requires IsLeftmostStandard(s, [m], ignoreCase, i, 0, w, e)
    decreases i, 0
    ensures ReplaceStandards(s, m, rep, ignoreCase) == s[..i] + rep + ReplaceStandards(s[e..], m, rep, ignoreCase)
  {
    LeftmostStandardUnshift(s, m, ignoreCase, i, w, e);
    ReplaceStandardsAt(s[1..], m, rep, ignoreCase, i - 1, w - 1, e - 1);
    ReplaceStandardsStep(s, m, rep, ignoreCase, i, w, e);
  }
}
