/**
 * `utils.hasClass`, `utils.addClass` and `utils.removeClass`: an element's
 * `className` as a whitespace-separated list of class tokens.
 *
 * `hasClass` matches the regular expression `(\s|^)cls(\s|$)`; `addClass`
 * appends `" " + cls` when that match fails; `removeClass` replaces the
 * first match, bounding whitespace included, with one space. Class names
 * are plain tokens (no whitespace, no regular-expression metacharacters).
 */
module ClassList {
  import opened Optional

  /** The characters JavaScript's `\s` matches. */
  predicate IsSpace(c: char) {
    || c == ' ' || c == '\t' || c == '\n' || c == '\r' || c == '\U{B}' || c == '\U{C}'
    || c == '\U{A0}' || c == '\U{1680}' || ('\U{2000}' <= c <= '\U{200A}')
    || c == '\U{2028}' || c == '\U{2029}' || c == '\U{202F}' || c == '\U{205F}'
    || c == '\U{3000}' || c == '\U{FEFF}'
  }

  /** A plain class token: non-empty and free of whitespace. */
  predicate IsToken(cls: string) {
    |cls| > 0 && forall m :: 0 <= m < |cls| ==> !IsSpace(cls[m])
  }

  /**
   * `cls` stands at index `i` of `s` as a whole token: the characters match,
   * it starts the string or follows a whitespace, and it ends the string or
   * is followed by a whitespace.
   */
  predicate OccursAt(s: string, cls: string, i: int) {
    && 0 <= i && i + |cls| <= |s|
    && (forall m :: 0 <= m < |cls| ==> s[i + m] == cls[m])
    && (i == 0 || IsSpace(s[i - 1]))
    && (i + |cls| == |s| || IsSpace(s[i + |cls|]))
  }

  /** The first whole-token occurrence of `cls` at or after `from`. */
  function FindFrom(s: string, cls: string, from: nat): (r: Option<nat>)
    decreases |s| + 1 - from
    ensures r.Some? ==> from <= r.value && OccursAt(s, cls, r.value)
    ensures r.Some? ==> forall j :: from <= j < r.value ==> !OccursAt(s, cls, j)
    ensures r.None? ==> forall j :: from <= j ==> !OccursAt(s, cls, j)
  {
    if from + |cls| > |s| then None
    else if OccursAt(s, cls, from) then Some(from)
    else FindFrom(s, cls, from + 1)
  }

  /** `hasClass(el, cls)`: the regular expression finds a match, that is, a whole-token occurrence. */
  predicate HasClass(s: string, cls: string) {
    exists i | 0 <= i <= |s| :: OccursAt(s, cls, i)
  }

  /** Where the first occurrence stands. */
  function First(s: string, cls: string): (i: nat)
    requires HasClass(s, cls)
    ensures OccursAt(s, cls, i)
    ensures forall j :: 0 <= j < i ==> !OccursAt(s, cls, j)
  {
    FindFrom(s, cls, 0).value
  }

  ghost predicate AtMostOnce(s: string, cls: string) {
    forall i, j :: OccursAt(s, cls, i) && OccursAt(s, cls, j) ==> i == j
  }

  /** `addClass(el, cls)`: the new `className`. */
  function Added(s: string, cls: string): (r: string)
    ensures HasClass(r, cls)
    ensures |s| <= |r| <= |s| + 1 + |cls| && r[..|s|] == s
    ensures HasClass(s, cls) ==> r == s
  {
    if HasClass(s, cls) then s
    else
      var r := s + [' '] + cls;
      assert OccursAt(r, cls, |s| + 1);
      r
  }

  /**
   * The text the first regex match covers: the first occurrence together
   * with the whitespace before it (when it does not start the string) and the
   * whitespace after it (when it does not end the string).
   */
  function MatchSpan(s: string, cls: string): (span: (nat, nat))
    requires HasClass(s, cls)
    ensures var i := First(s, cls);
      && (span.0 == i <==> i == 0)
      && (span.0 != i ==> span.0 == i - 1 && IsSpace(s[span.0]))
      && (span.1 == i + |cls| <==> i + |cls| == |s|)
      && (span.1 != i + |cls| ==> span.1 == i + |cls| + 1 <= |s| && IsSpace(s[i + |cls|]))
  {
    var i := First(s, cls);
    (if i == 0 then 0 else i - 1, if i + |cls| == |s| then |s| else i + |cls| + 1)
  }

  /** `className.replace(reg, ' ')` when the regex matches: the match becomes one space, the text around it stays. */
  function ReplaceFirst(s: string, cls: string): (r: string)
    requires HasClass(s, cls)
    ensures var (start, stop) := MatchSpan(s, cls);
      && |r| == |s| - (stop - start) + 1
      && r[..start] == s[..start] && r[start] == ' ' && r[start + 1..] == s[stop..]
  {
    var (start, stop) := MatchSpan(s, cls);
    s[..start] + [' '] + s[stop..]
  }

  /** `removeClass(el, cls)`: the new `className`. */
  function Removed(s: string, cls: string): (r: string)
    requires IsToken(cls)
    ensures !HasClass(s, cls) ==> r == s
    ensures |r| <= |s|
  {
    if HasClass(s, cls) then ReplaceFirst(s, cls) else s
  }

  /** Adding a name that is already there changes nothing, so adding twice is adding once. */
  lemma {:induction false} AddedIdempotent(s: string, cls: string)
    ensures Added(Added(s, cls), cls) == Added(s, cls)
    ensures HasClass(s, cls) ==> Added(s, cls) == s
  {
  }

  /** A token occurrence covers no whitespace. */
  lemma {:induction false} TokenChars(s: string, cls: string, i: int)
    requires IsToken(cls)
    ensures OccursAt(s, cls, i) ==> forall q :: i <= q < i + |cls| ==> !IsSpace(s[q])
  {
    if OccursAt(s, cls, i) {
      forall q | i <= q < i + |cls|
        ensures !IsSpace(s[q])
      {
        assert s[i + (q - i)] == cls[q - i];
      }
    }
  }

  /** An occurrence that ends inside `a` is one of `a + b`, given the right boundary. */
  lemma {:induction false} PrefixOccurrence(a: string, b: string, cls: string, k: int)
    ensures k + |cls| <= |a| ==>
      (OccursAt(a + b, cls, k) <==> OccursAt(a, cls, k) && (k + |cls| < |a| || b == [] || IsSpace(b[0])))
  {
    var ab := a + b;
    if k + |cls| <= |a| {
      assert forall p :: 0 <= p < |a| ==> ab[p] == a[p];
      if b != [] {
        assert ab[|a|] == b[0];
      }
    }
  }

  /** An occurrence that starts inside `b` is one of `a + b`, given the left boundary. */
  lemma {:induction false} SuffixOccurrence(a: string, b: string, cls: string, k: int)
    ensures |a| <= k ==>
      (OccursAt(a + b, cls, k) <==> OccursAt(b, cls, k - |a|) && (|a| < k || a == [] || IsSpace(a[|a| - 1])))
  {
    var ab := a + b;
    if |a| <= k {
      assert forall p :: |a| <= p < |ab| ==> ab[p] == b[p - |a|];
      if a != [] {
        assert ab[|a| - 1] == a[|a| - 1];
      }
    }
  }

  /** Adding an absent token creates exactly one occurrence: the appended one. */
  lemma {:induction false} AppendOccurrences(s: string, cls: string, k: int)
    requires IsToken(cls) && forall i :: !OccursAt(s, cls, i)
    ensures OccursAt(s + [' '] + cls, cls, k) <==> k == |s| + 1
  {
    var r := s + [' '] + cls;
    assert r == s + ([' '] + cls);
    assert r[|s|] == ' ';
    assert OccursAt(r, cls, |s| + 1);
    if OccursAt(r, cls, k) {
      TokenChars(r, cls, k);
      assert !(k <= |s| < k + |cls|);
      PrefixOccurrence(s, [' '] + cls, cls, k);
      assert k + |cls| <= |s| ==> OccursAt(s, cls, k);
      assert |s| < k;
    }
  }

  lemma {:induction false} AddedOccurrences(s: string, cls: string, k: int)
    requires IsToken(cls) && !HasClass(s, cls)
    ensures OccursAt(Added(s, cls), cls, k) <==> k == |s| + 1
  {
    AppendOccurrences(s, cls, k);
  }

  /** Every occurrence after the first starts at or beyond the end of the first match. */
  lemma {:induction false} LaterOccurrences(s: string, cls: string, j: int)
    requires IsToken(cls) && HasClass(s, cls) && OccursAt(s, cls, j) && j != First(s, cls)
    ensures j >= MatchSpan(s, cls).1
  {
    TokenChars(s, cls, First(s, cls));
  }

  /** The first match of `cls` in `s` stands at `i` and spans `start..stop`. */
  ghost predicate FirstMatch(s: string, cls: string, i: nat, start: nat, stop: nat) {
    && OccursAt(s, cls, i)
    && (forall j :: 0 <= j < i ==> !OccursAt(s, cls, j))
    && start == (if i == 0 then 0 else i - 1)
    && stop == (if i + |cls| == |s| then |s| else i + |cls| + 1)
  }

  lemma {:induction false} SpliceBefore(s: string, cls: string, i: nat, start: nat, stop: nat, k: int)
    requires IsToken(cls) && FirstMatch(s, cls, i, start, stop) && k <= start
    ensures !OccursAt(s[..start] + [' '] + s[stop..], cls, k)
  {
    var before, rest := s[..start], s[start..];
    assert s == before + rest;
    var r := s[..start] + [' '] + s[stop..];
    assert r == before + ([' '] + s[stop..]);
    assert r[start] == ' ';
    assert 0 < start ==> IsSpace(rest[0]);
    TokenChars(r, cls, k);
    PrefixOccurrence(before, [' '] + s[stop..], cls, k);
    PrefixOccurrence(before, rest, cls, k);
  }

  lemma {:induction false} SpliceAfter(s: string, cls: string, start: nat, stop: nat, k: int)
    requires cls != [] && start < stop <= |s| && (stop < |s| ==> IsSpace(s[stop - 1])) && start < k
    ensures OccursAt(s[..start] + [' '] + s[stop..], cls, k) <==> OccursAt(s, cls, k + (stop - start - 1))
  {
    var front, after := s[..stop], s[stop..];
    assert s == front + after;
    var a := s[..start] + [' '];
    assert |a| == start + 1 && a[start] == ' ';
    assert stop < |s| ==> IsSpace(front[stop - 1]);
    SuffixOccurrence(a, after, cls, k);
    SuffixOccurrence(front, after, cls, k + (stop - start - 1));
  }

  lemma {:induction false} SpliceOccurrences(s: string, cls: string, i: nat, start: nat, stop: nat, k: int)
    requires IsToken(cls) && FirstMatch(s, cls, i, start, stop)
    ensures OccursAt(s[..start] + [' '] + s[stop..], cls, k) <==> start < k && OccursAt(s, cls, k + (stop - start - 1))
  {
    if k <= start {
      SpliceBefore(s, cls, i, start, stop, k);
    } else {
      SpliceAfter(s, cls, start, stop, k);
    }
  }

  /**
   * Removing a present token: the occurrences afterwards are exactly the
   * occurrences of the old `className` that follow the first match, shifted
   * left by the length the replacement saved.
   */
  lemma {:induction false} RemovedOccurrences(s: string, cls: string, k: int)
    requires IsToken(cls) && HasClass(s, cls)
    ensures var (start, stop) := MatchSpan(s, cls);
      OccursAt(Removed(s, cls), cls, k) <==> start < k && OccursAt(s, cls, k + (stop - start - 1))
  {
    var i := First(s, cls);
    var (start, stop) := MatchSpan(s, cls);
    assert FirstMatch(s, cls, i, start, stop);
    assert Removed(s, cls) == s[..start] + [' '] + s[stop..];
    SpliceOccurrences(s, cls, i, start, stop, k);
  }

  /** A class token occurs as a whole inside another token only as that very token. */
  lemma {:induction false} OccursInToken(c: string, o: string, j: int)
    requires IsToken(c)
    ensures OccursAt(c, o, j) <==> j == 0 && o == c
  {
    if OccursAt(c, o, j) {
      assert j == 0 && |o| == |c|;
      assert forall m :: 0 <= m < |o| ==> o[m] == c[m];
    }
  }

  /** Whole occurrences of two tokens either stand apart or are the same token at the same place. */
  lemma {:induction false} DisjointTokens(s: string, c: string, o: string, i: int, k: int)
    requires IsToken(c) && IsToken(o) && OccursAt(s, c, i) && OccursAt(s, o, k)
    ensures k + |o| <= i || i + |c| <= k || (k == i && o == c)
  {
    TokenChars(s, c, i);
    TokenChars(s, o, k);
    if k < i {
      assert IsSpace(s[i - 1]);
    } else if i < k {
      assert IsSpace(s[k - 1]);
    } else {
      assert |o| == |c|;
      assert forall m :: 0 <= m < |o| ==> o[m] == s[k + m] == c[m];
    }
  }

  /** `addClass` adds the one token it is given and takes none away. */
  lemma {:induction false} AddedTokens(s: string, c: string, o: string)
    requires IsToken(c) && IsToken(o)
    ensures HasClass(Added(s, c), o) <==> HasClass(s, o) || o == c
  {
    if !HasClass(s, c) {
      var tail := [' '] + c;
      var r := s + tail;
      assert Added(s, c) == r && r == (s + [' ']) + c;
      assert r[|s|] == ' ' && tail[0] == ' ';
      if HasClass(r, o) {
        var k :| 0 <= k <= |r| && OccursAt(r, o, k);
        TokenChars(r, o, k);
        if k + |o| <= |s| {
          PrefixOccurrence(s, tail, o, k);
        } else {
          SuffixOccurrence(s + [' '], c, o, k);
          OccursInToken(c, o, k - |s| - 1);
        }
      }
      if HasClass(s, o) {
        var k :| 0 <= k <= |s| && OccursAt(s, o, k);
        PrefixOccurrence(s, tail, o, k);
      }
      if o == c {
        assert OccursAt(r, o, |s| + 1);
      }
    }
  }

  /** Two strings that continue a common prefix with whitespace agree on the occurrences inside that prefix. */
  lemma {:induction false} SharedPrefix(a: string, x: string, y: string, o: string, k: int)
    requires x != [] && y != [] && k + |o| <= |a| && (k + |o| < |a| || (IsSpace(x[0]) && IsSpace(y[0])))
    ensures OccursAt(a + x, o, k) <==> OccursAt(a + y, o, k)
  {
    PrefixOccurrence(a, x, o, k);
    PrefixOccurrence(a, y, o, k);
  }

  /** After the match is replaced, an occurrence of any token before the space stood there before. */
  lemma {:induction false} SpliceBackBefore(s: string, c: string, o: string, k: int)
    requires IsToken(c) && IsToken(o) && HasClass(s, c) && k <= MatchSpan(s, c).0
    ensures OccursAt(ReplaceFirst(s, c), o, k) ==> OccursAt(s, o, k)
  {
    var start := MatchSpan(s, c).0;
    var r := ReplaceFirst(s, c);
    if OccursAt(r, o, k) {
      TokenChars(r, o, k);
      assert r[start] == ' ';
      assert r == s[..start] + r[start..] && s == s[..start] + s[start..];
      SharedPrefix(s[..start], r[start..], s[start..], o, k);
    }
  }

  /** After the match is replaced, an occurrence of any token past the space stood further right before. */
  lemma {:induction false} SpliceBackAfter(s: string, c: string, o: string, k: int)
    requires IsToken(c) && IsToken(o) && HasClass(s, c) && MatchSpan(s, c).0 < k
    ensures var (start, stop) := MatchSpan(s, c);
      OccursAt(ReplaceFirst(s, c), o, k) ==> OccursAt(s, o, k + (stop - start - 1))
  {
    var (start, stop) := MatchSpan(s, c);
    SpliceAfter(s, o, start, stop, k);
  }

  /** Another token's occurrence lies wholly before the first match of `c` or wholly after it. */
  lemma {:induction false} OtherOutsideMatch(s: string, c: string, o: string, k: int)
    requires IsToken(c) && IsToken(o) && o != c && HasClass(s, c) && OccursAt(s, o, k)
    ensures k + |o| <= MatchSpan(s, c).0 || MatchSpan(s, c).1 <= k
  {
    var i := First(s, c);
    DisjointTokens(s, c, o, i, k);
    TokenChars(s, o, k);
  }

  /** An occurrence of another token before the match survives its replacement in place. */
  lemma {:induction false} SpliceOtherBefore(s: string, c: string, o: string, k: int)
    requires IsToken(c) && HasClass(s, c) && OccursAt(s, o, k) && k + |o| <= MatchSpan(s, c).0
    ensures OccursAt(ReplaceFirst(s, c), o, k)
  {
    var start := MatchSpan(s, c).0;
    var r := ReplaceFirst(s, c);
    assert r[start] == ' ';
    assert r == s[..start] + r[start..] && s == s[..start] + s[start..];
    SharedPrefix(s[..start], r[start..], s[start..], o, k);
  }

  /** An occurrence of another token after the match survives its replacement, shifted left. */
  lemma {:induction false} SpliceOtherAfter(s: string, c: string, o: string, k: int)
    requires IsToken(c) && IsToken(o) && HasClass(s, c) && OccursAt(s, o, k) && MatchSpan(s, c).1 <= k
    ensures var (start, stop) := MatchSpan(s, c);
      OccursAt(ReplaceFirst(s, c), o, k - (stop - start - 1))
  {
    var (start, stop) := MatchSpan(s, c);
    SpliceAfter(s, o, start, stop, k - (stop - start - 1));
  }

  /** `removeClass` takes away the one token it is given and no other. */
  lemma {:induction false} RemovedTokens(s: string, c: string, o: string)
    requires IsToken(c) && IsToken(o) && o != c
    ensures HasClass(Removed(s, c), o) <==> HasClass(s, o)
  {
    if HasClass(s, c) {
      var r := Removed(s, c);
      if HasClass(r, o) {
        var k :| 0 <= k <= |r| && OccursAt(r, o, k);
        if k <= MatchSpan(s, c).0 {
          SpliceBackBefore(s, c, o, k);
        } else {
          SpliceBackAfter(s, c, o, k);
        }
      }
      if HasClass(s, o) {
        var k :| 0 <= k <= |s| && OccursAt(s, o, k);
        OtherOutsideMatch(s, c, o, k);
        if k + |o| <= MatchSpan(s, c).0 {
          SpliceOtherBefore(s, c, o, k);
        } else {
          SpliceOtherAfter(s, c, o, k);
        }
      }
    }
  }

  /** When the token stood at most once, removing it leaves none. */
  lemma {:induction false} RemovedAbsent(s: string, cls: string)
    requires IsToken(cls) && AtMostOnce(s, cls)
    ensures !HasClass(Removed(s, cls), cls)
  {
    if HasClass(s, cls) {
      forall k | OccursAt(Removed(s, cls), cls, k)
        ensures false
      {
        RemovedOccurrences(s, cls, k);
      }
    }
  }

  /** Adding keeps a token from standing twice. */
  lemma {:induction false} AddedAtMostOnce(s: string, cls: string)
    requires IsToken(cls) && AtMostOnce(s, cls)
    ensures AtMostOnce(Added(s, cls), cls)
  {
    if !HasClass(s, cls) {
      forall i, j | OccursAt(Added(s, cls), cls, i) && OccursAt(Added(s, cls), cls, j)
        ensures i == j
      {
        AddedOccurrences(s, cls, i);
        AddedOccurrences(s, cls, j);
      }
    }
  }

  /**
   * Adding and then removing a token that stood at most once leaves it
   * absent (the loading indicator's add-on-switch, remove-on-canplay cycle).
   */
  lemma {:induction false} AddThenRemove(s: string, cls: string)
    requires IsToken(cls) && AtMostOnce(s, cls)
    ensures !HasClass(Removed(Added(s, cls), cls), cls)
  {
    AddedAtMostOnce(s, cls);
    RemovedAbsent(Added(s, cls), cls);
  }

  /** A DOM element, reduced to the `className` the utilities update in place. */
  class Element {
    var className: string

    constructor (className: string)
      ensures this.className == className
    {
      this.className := className;
    }

    method AddClass(cls: string)
      modifies this
      ensures className == Added(old(className), cls)
      ensures HasClass(className, cls)
    {
      if !HasClass(className, cls) {
        className := className + [' '] + cls;
      }
    }

    method RemoveClass(cls: string)
      requires IsToken(cls)
      modifies this
      ensures className == Removed(old(className), cls)
      ensures AtMostOnce(old(className), cls) ==> !HasClass(className, cls)
    {
      if AtMostOnce(className, cls) {
        RemovedAbsent(className, cls);
      }
      if HasClass(className, cls) {
        className := ReplaceFirst(className, cls);
      }
    }
  }
}
