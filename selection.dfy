/** Which candidate a left-to-right scan keeps when it replaces its current
    best only on a STRICT improvement: the first index attaining the best
    value. */
module Selection {
  import opened Common

  /** k is the first index of a maximum of s. */
  predicate IsFirstMax(s: seq<real>, k: int)
  {
    && 0 <= k < |s|
    && (forall j :: 0 <= j < |s| ==> s[j] <= s[k])
    && (forall j :: 0 <= j < k ==> s[j] < s[k])
  }

  lemma FirstMaxUnique(s: seq<real>, a: int, b: int)
    requires IsFirstMax(s, a) && IsFirstMax(s, b)
    ensures a == b
  {
    assert s[a] <= s[b] && s[b] <= s[a];
  }

  /** Computed from the front, independently of the scan that it specifies. */
  function FirstMaxIndex(s: seq<real>): (k: nat)
    requires |s| > 0
    ensures IsFirstMax(s, k)
  {
    if |s| == 1 then 0
    else
      var k := FirstMaxIndex(s[1..]);
      if s[0] >= s[1 + k] then 0 else 1 + k
  }

  /** One step of the scan `if x > best: best = x` keeps the first maximum. */
  lemma FirstMaxStep(s: seq<real>, i: nat)
    requires 0 < i < |s|
    ensures var k := FirstMaxIndex(s[..i]);
      FirstMaxIndex(s[..i + 1]) == if s[i] > s[k] then i else k
  {
    var k := FirstMaxIndex(s[..i]);
    var p := s[..i + 1];
    assert s[..i] == p[..i];
    var expected := if s[i] > s[k] then i else k;
    assert IsFirstMax(p, expected);
    FirstMaxUnique(p, expected, FirstMaxIndex(p));
  }

  /** k is the first index of a minimum of s, in the order of ExtLess. */
  predicate IsFirstMin(s: seq<Ext>, k: int)
  {
    && 0 <= k < |s|
    && (forall j :: 0 <= j < |s| ==> !ExtLess(s[j], s[k]))
    && (forall j :: 0 <= j < k ==> ExtLess(s[k], s[j]))
  }

  lemma FirstMinUnique(s: seq<Ext>, a: int, b: int)
    requires IsFirstMin(s, a) && IsFirstMin(s, b)
    ensures a == b
  {
    assert !ExtLess(s[a], s[b]) && !ExtLess(s[b], s[a]);
  }

  function FirstMinIndex(s: seq<Ext>): (k: nat)
    requires |s| > 0
    ensures IsFirstMin(s, k)
  {
    if |s| == 1 then 0
    else
      var k := FirstMinIndex(s[1..]);
      if ExtLess(s[1 + k], s[0]) then 1 + k else 0
  }

  /** One step of the scan `if x < best: best = x` keeps the first minimum. */
  lemma FirstMinStep(s: seq<Ext>, i: nat)
    requires 0 < i < |s|
    ensures var k := FirstMinIndex(s[..i]);
      FirstMinIndex(s[..i + 1]) == if ExtLess(s[i], s[k]) then i else k
  {
    var k := FirstMinIndex(s[..i]);
    var p := s[..i + 1];
    assert s[..i] == p[..i];
    var expected := if ExtLess(s[i], s[k]) then i else k;
    forall j | 0 <= j < |p| ensures !ExtLess(p[j], p[expected]) {
      ExtLessIsStrictTotal(p[j], p[k], p[i]);
      ExtLessIsStrictTotal(p[i], p[j], p[k]);
    }
    assert IsFirstMin(p, expected);
    FirstMinUnique(p, expected, FirstMinIndex(p));
  }
}
