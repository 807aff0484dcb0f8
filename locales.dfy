/**
 * Choosing the locales an AI translation writes to. The bulk service and the
 * single-record trait both pick "every supported locale except the source" or the
 * one chosen target, and both refuse a target list that contains the source.
 */
module Locales {

  /** `array_filter($s, fn ($x) => $x !== $drop)`: the elements other than `drop`, in order. */
  function Without(s: seq<string>, drop: string): (r: seq<string>)
    ensures forall y :: y in r <==> y in s && y != drop
    ensures drop !in s ==> r == s
    ensures |r| <= |s|
    decreases |s|
  {
    if s == [] then []
    else
      var rest := Without(s[..|s| - 1], drop);
      assert s == s[..|s| - 1] + [s[|s| - 1]];
      if s[|s| - 1] == drop then rest else rest + [s[|s| - 1]]
  }

  /** Filtering distributes over concatenation, so the order of the kept elements is the input's. */
  lemma {:induction false} WithoutAppend(a: seq<string>, b: seq<string>, drop: string)
    ensures Without(a + b, drop) == Without(a, drop) + Without(b, drop)
    decreases |b|
  {
    if b == [] {
      assert a + b == a;
    } else {
      var b' := b[..|b| - 1];
      assert (a + b)[..|a + b| - 1] == a + b';
      assert (a + b)[|a + b| - 1] == b[|b| - 1];
      WithoutAppend(a, b', drop);
    }
  }

  /** The target locales: all supported locales minus the source, or the single chosen target. */
  function SelectTargets(supported: seq<string>, source: string, target: string, targetAll: bool): seq<string>
  {
    if targetAll then Without(supported, source) else [target]
  }

  /** "All targets" is every supported locale except the source, and nothing else. */
  lemma AllTargetsAreOtherSupported(supported: seq<string>, source: string, target: string, l: string)
    ensures SelectTargets(supported, source, target, true) == Without(supported, source)
    ensures l in SelectTargets(supported, source, target, true) <==> l in supported && l != source
  {
  }

  /** Without "all targets" the target list is exactly the chosen locale. */
  lemma SingleTarget(supported: seq<string>, source: string, target: string)
    ensures SelectTargets(supported, source, target, false) == [target]
  {
  }

  /**
   * The request is refused (the source is among the targets) exactly when a single
   * target was chosen and it is the source locale itself.
   */
  lemma RejectedIff(supported: seq<string>, source: string, target: string, targetAll: bool)
    ensures source in SelectTargets(supported, source, target, targetAll) <==> !targetAll && target == source
  {
  }

  /** With `en`, `ar`, `fr` supported and `en` the source, "all targets" is `ar`, `fr`. */
  lemma AllTargetsExample()
    ensures SelectTargets(["en", "ar", "fr"], "en", "", true) == ["ar", "fr"]
  {
    assert ["en", "ar", "fr"][..2] == ["en", "ar"];
    assert ["en", "ar"][..1] == ["en"];
    assert ["en"][..0] == [];
  }

  /** The distinct elements of `s`, each at the place it first occurs (PHP's keyed assignment). */
  function Dedupe(s: seq<string>): (r: seq<string>)
    ensures forall y :: y in r <==> y in s
    ensures forall i, j :: 0 <= i < j < |r| ==> r[i] != r[j]
    ensures |r| <= |s|
    decreases |s|
  {
    if s == [] then []
    else
      var rest := Dedupe(s[..|s| - 1]);
      assert s == s[..|s| - 1] + [s[|s| - 1]];
      if s[|s| - 1] in rest then rest else rest + [s[|s| - 1]]
  }

  /** The position at which `x` first occurs in `s`. */
  function IndexOf(s: seq<string>, x: string): (r: nat)
    requires x in s
    ensures r < |s| && s[r] == x
    ensures forall k :: 0 <= k < r ==> s[k] != x
    decreases |s|
  {
    if s[0] == x then 0 else 1 + IndexOf(s[1..], x)
  }

  /** An element of a prefix first occurs in the whole sequence where it first occurs in the prefix. */
  lemma IndexOfPrefix(s: seq<string>, n: nat, x: string)
    requires n <= |s| && x in s[..n]
    ensures IndexOf(s, x) == IndexOf(s[..n], x)
  {
    var a, b := IndexOf(s, x), IndexOf(s[..n], x);
    assert s[b] == x;
  }

  /** `Dedupe` lists the distinct elements in the order of their first occurrence. */
  lemma {:induction false} DedupeFirstOccurrenceOrder(s: seq<string>)
    ensures forall i, j :: 0 <= i < j < |Dedupe(s)| ==> IndexOf(s, Dedupe(s)[i]) < IndexOf(s, Dedupe(s)[j])
    decreases |s|
  {
    if s != [] {
      var init, last := s[..|s| - 1], s[|s| - 1];
      var rest := Dedupe(init);
      DedupeFirstOccurrenceOrder(init);
      forall x | x in init
        ensures IndexOf(s, x) == IndexOf(init, x)
      {
        IndexOfPrefix(s, |s| - 1, x);
      }
      if last !in rest {
        assert Dedupe(s) == rest + [last];
        assert IndexOf(s, last) == |s| - 1;
      }
    }
  }
}
