/** `getCliVersions` (src/main.js): from the published versions of
    Lighthouse, in the order npm lists them, pick the last listed version of
    the numerically highest major and the last listed version of the major
    below it. The list arrives already parsed from npm's JSON. */
module Versions {
  import opened Wrappers
  import opened Text

  /** `version.split('.')[0]`: the text before the first dot, or the whole
      version when it has none. */
  function MajorOf(v: string): string {
    if |v| == 0 || v[0] == '.' then "" else [v[0]] + MajorOf(v[1..])
  }

  /** The major is a dot-free prefix of the version, followed by a dot
      unless it is the whole version. */
  lemma {:induction false} MajorOfSpec(v: string)
    ensures StartsWith(v, MajorOf(v))
    ensures forall k :: 0 <= k < |MajorOf(v)| ==> MajorOf(v)[k] != '.'
    ensures |MajorOf(v)| < |v| ==> v[|MajorOf(v)|] == '.'
  {
    if |v| > 0 && v[0] != '.' {
      MajorOfSpec(v[1..]);
      assert v == [v[0]] + v[1..];
    }
  }

  /** `lastVersionOfMajor`: for every major text, the version listed last
      with that major; a later version overwrites an earlier one. */
  function LastOfMajor(versions: seq<string>): (m: map<string, string>)
    ensures forall k :: Lookup(m, k) == LastWithMajorText(versions, k)
  {
    if |versions| == 0 then map[]
    else
      var n := |versions| - 1;
      LastOfMajor(versions[..n])[MajorOf(versions[n]) := versions[n]]
  }

  /** Reference: the last listed version whose major is the text `k`. */
  function LastWithMajorText(versions: seq<string>, k: string): Option<string> {
    if |versions| == 0 then None
    else
      var n := |versions| - 1;
      if MajorOf(versions[n]) == k then Some(versions[n]) else LastWithMajorText(versions[..n], k)
  }

  /** The reference picks the version listed last among those with the
      major `k`, and finds none exactly when no version has that major. */
  lemma {:induction false} LastWithMajorTextSpec(versions: seq<string>, k: string)
    ensures LastWithMajorText(versions, k).None? <==>
      forall i :: 0 <= i < |versions| ==> MajorOf(versions[i]) != k
    ensures LastWithMajorText(versions, k).Some? ==>
      exists i :: 0 <= i < |versions| && versions[i] == LastWithMajorText(versions, k).value
        && MajorOf(versions[i]) == k && forall j :: i < j < |versions| ==> MajorOf(versions[j]) != k
  {
    if |versions| > 0 {
      var n := |versions| - 1;
      var init := versions[..n];
      LastWithMajorTextSpec(init, k);
      assert forall i :: 0 <= i < n ==> init[i] == versions[i];
    }
  }

  /** A JavaScript number as far as `Number(...)`, `Math.max` and `- 1`
      are concerned here. */
  datatype JsNumber = Finite(n: int) | NaN | NegInfinity

  /** `Number(key)`: a string of decimal digits reads as its value (the
      empty string as 0); every other string reads as NaN. */
  function ToNumber(key: string): JsNumber {
    if AllDigits(key) then Finite(ParseDecimal(key)) else NaN
  }

  /** `Math.max(a, b)`: NaN wins, -Infinity is the identity. */
  function JsMax(a: JsNumber, b: JsNumber): JsNumber {
    if a.NaN? || b.NaN? then NaN
    else if a.NegInfinity? then b
    else if b.NegInfinity? then a
    else Finite(if a.n < b.n then b.n else a.n)
  }

  /** `Math.max(...xs)`; with no arguments it is -Infinity. */
  function MaxOf(xs: seq<JsNumber>): JsNumber {
    if |xs| == 0 then NegInfinity else JsMax(MaxOf(xs[..|xs| - 1]), xs[|xs| - 1])
  }

  /** The numbers of the majors, one per listed version. `Math.max` over the
      keys of `lastVersionOfMajor` sees the same set of majors, so it gives
      the same maximum. */
  function MajorNumbers(versions: seq<string>): seq<JsNumber> {
    seq(|versions|, i requires 0 <= i < |versions| => ToNumber(MajorOf(versions[i])))
  }

  function Minus1(x: JsNumber): JsNumber {
    if x.Finite? then Finite(x.n - 1) else x
  }

  /** The property key a number indexes an object with: `String(x)`. */
  function PropertyKey(x: JsNumber): string {
    match x
    case Finite(n) => if n >= 0 then NatToString(n) else "-" + NatToString(-n)
    case NaN => "NaN"
    case NegInfinity => "-Infinity"
  }

  function Lookup(m: map<string, string>, k: string): Option<string> {
    if k in m then Some(m[k]) else None
  }

  /** `getCliVersions()` on the parsed version list: `[latest, previous]`,
      where a missing entry is `undefined`. */
  function CliVersions(versions: seq<string>): seq<Option<string>> {
    var m := LastOfMajor(versions);
    var latest := MaxOf(MajorNumbers(versions));
    [Lookup(m, PropertyKey(latest)), Lookup(m, PropertyKey(Minus1(latest)))]
  }

  /** Whatever the list holds, `getCliVersions` picks two entries, each a
      listed version or `undefined`. */
  lemma CliVersionsListed(versions: seq<string>)
    ensures |CliVersions(versions)| == 2
    ensures forall i :: 0 <= i < 2 && CliVersions(versions)[i].Some? ==> CliVersions(versions)[i].value in versions
  {
    var latest := MaxOf(MajorNumbers(versions));
    LastWithMajorTextSpec(versions, PropertyKey(latest));
    LastWithMajorTextSpec(versions, PropertyKey(Minus1(latest)));
  }

  /** Every major is written as `String` prints a number, as semantic
      versions are. */
  predicate SemverMajors(versions: seq<string>) {
    forall i :: 0 <= i < |versions| ==> IsCanonicalDecimal(MajorOf(versions[i]))
  }

  /** The major of a version whose major is a canonical decimal, as a number. */
  function MajorNumber(v: string): nat
    requires IsCanonicalDecimal(MajorOf(v))
  {
    ParseDecimal(MajorOf(v))
  }

  /** Reference: the last listed version whose major is the number `n`. */
  function LastWithMajor(versions: seq<string>, n: int): Option<string>
    requires SemverMajors(versions)
  {
    if |versions| == 0 then None
    else
      var k := |versions| - 1;
      if MajorNumber(versions[k]) == n then Some(versions[k])
      else LastWithMajor(versions[..k], n)
  }

  /** With semantic-version majors, `Math.max` over the majors is the
      numerically highest one. */
  lemma {:induction false} MaxOfSemver(versions: seq<string>)
    requires SemverMajors(versions) && |versions| > 0
    ensures MaxOf(MajorNumbers(versions)).Finite?
    ensures exists i :: 0 <= i < |versions| && MajorNumber(versions[i]) == MaxOf(MajorNumbers(versions)).n
    ensures forall i :: 0 <= i < |versions| ==> MajorNumber(versions[i]) <= MaxOf(MajorNumbers(versions)).n
  {
    var k := |versions| - 1;
    var init := versions[..k];
    assert MajorNumbers(versions)[..k] == MajorNumbers(init);
    if k > 0 {
      MaxOfSemver(init);
    }
  }

  /** Looking up the key `String(n)` in `lastVersionOfMajor` finds the last
      version whose major is the number `n`. */
  lemma {:induction false} LookupByNumber(versions: seq<string>, n: int)
    requires SemverMajors(versions)
    ensures LastWithMajorText(versions, PropertyKey(Finite(n))) == LastWithMajor(versions, n)
  {
    if |versions| > 0 {
      var k := |versions| - 1;
      var init := versions[..k];
      var major := MajorOf(versions[k]);
      assert SemverMajors(init) by {
        assert forall i :: 0 <= i < k ==> init[i] == versions[i];
      }
      LookupByNumber(init, n);
      PrintParsed(major);
      if n >= 0 {
        ParsePrinted(n);
        assert major == NatToString(n) <==> ParseDecimal(major) == n;
      } else {
        assert PropertyKey(Finite(n))[0] == '-';
        assert major != PropertyKey(Finite(n));
      }
    }
  }

  /** `getCliVersions` returns the last listed version of the numerically
      highest major and the last listed version of that major minus one
      (None when no version has it), whenever the majors are semantic. */
  lemma LatestTwoMajors(versions: seq<string>, highest: nat)
    requires SemverMajors(versions)
    requires exists i :: 0 <= i < |versions| && MajorNumber(versions[i]) == highest
    requires forall i :: 0 <= i < |versions| ==> MajorNumber(versions[i]) <= highest
    ensures CliVersions(versions) == [LastWithMajor(versions, highest), LastWithMajor(versions, highest - 1)]
    ensures CliVersions(versions)[0].Some?
  {
    MaxIsHighest(versions, highest);
    LookupByNumber(versions, highest);
    LookupByNumber(versions, highest - 1);
    LastWithMajorFound(versions, highest);
    var lm := LastOfMajor(versions);
    assert CliVersions(versions) == [Lookup(lm, PropertyKey(Finite(highest))), Lookup(lm, PropertyKey(Finite(highest - 1)))];
  }

  /** `Math.max` over semantic majors is the highest major. */
  lemma MaxIsHighest(versions: seq<string>, highest: nat)
    requires SemverMajors(versions)
    requires exists i :: 0 <= i < |versions| && MajorNumber(versions[i]) == highest
    requires forall i :: 0 <= i < |versions| ==> MajorNumber(versions[i]) <= highest
    ensures MaxOf(MajorNumbers(versions)) == Finite(highest)
  {
    MaxOfSemver(versions);
    var m := MaxOf(MajorNumbers(versions));
    var i :| 0 <= i < |versions| && MajorNumber(versions[i]) == highest;
    var j :| 0 <= j < |versions| && MajorNumber(versions[j]) == m.n;
    assert MajorNumber(versions[j]) <= highest && MajorNumber(versions[i]) <= m.n;
  }

  lemma {:induction false} LastWithMajorFound(versions: seq<string>, n: int)
    requires SemverMajors(versions)
    requires exists i :: 0 <= i < |versions| && MajorNumber(versions[i]) == n
    ensures LastWithMajor(versions, n).Some?
  {
    var k := |versions| - 1;
    if MajorNumber(versions[k]) != n {
      var i :| 0 <= i < |versions| && MajorNumber(versions[i]) == n;
      assert versions[..k][i] == versions[i];
      LastWithMajorFound(versions[..k], n);
    }
  }
}
