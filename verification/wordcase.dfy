/** Conversion of command parameter names from `--kebab-case` to `camelCase`, as
    done for the `args` of every command sent to the main application. Strings
    stand for ASCII text: upper-casing only affects `a`..`z`. */
module WordCase {
  import opened Strings

  /** Go's `strings.ToUpper` applied to a one-character ASCII string. */
  function ToUpperAscii(c: char): char
  {
    if 'a' <= c <= 'z' then (c as int - 32) as char else c
  }

  /** What the loop body appends for the part at index `i` of the split word:
      nothing for an empty part, part 0 unchanged, any later part with its first
      character upper-cased. */
  function Segment(part: string, i: nat): string
  {
    if part == "" then ""
    else if i == 0 then part
    else [ToUpperAscii(part[0])] + part[1..]
  }

  /** The loop of `KababCaseToCamelCase` over `parts`, whose first element has index `i`. */
  function JoinSegments(parts: seq<string>, i: nat): string
    decreases |parts|
  {
    if |parts| == 0 then "" else Segment(parts[0], i) + JoinSegments(parts[1..], i + 1)
  }

  /** A character-level description of the same conversion, independent of splitting:
      every `-` is dropped, and a character is upper-cased exactly when it directly
      follows a `-` (`afterDash` says whether the character before `s` was one). */
  function CamelCaseReference(s: string, afterDash: bool): string
    decreases |s|
  {
    if |s| == 0 then ""
    else if s[0] == '-' then CamelCaseReference(s[1..], true)
    else [if afterDash then ToUpperAscii(s[0]) else s[0]] + CamelCaseReference(s[1..], false)
  }

  /** The description drops every `-` and keeps every other character. */
  lemma {:induction false} CamelCaseReferenceSpec(s: string, afterDash: bool)
    ensures '-' !in CamelCaseReference(s, afterDash)
    ensures |CamelCaseReference(s, afterDash)| == |s| - CountChar(s, '-')
    decreases |s|
  {
    if |s| > 0 {
      CamelCaseReferenceSpec(s[1..], s[0] == '-');
    }
  }

  /** Go's `KababCaseToCamelCase`: drop the first two characters (whatever they are),
      split the rest on `-` and glue the parts back together camel-cased. Go slices
      `word[2:]`, so a shorter word is a run-time panic; the model requires two
      characters. */
  function KababCaseToCamelCase(word: string): string
    requires |word| >= 2
  {
    JoinSegments(Split(word[2..], '-'), 0)
  }

  /** The conversion agrees with the character-level description; its result contains
      no `-` and is shorter than the input by the two prefix characters and by every
      `-` after them. */
  lemma KababCaseToCamelCaseSpec(word: string)
    requires |word| >= 2
    ensures KababCaseToCamelCase(word) == CamelCaseReference(word[2..], false)
    ensures '-' !in KababCaseToCamelCase(word)
    ensures |KababCaseToCamelCase(word)| == |word| - 2 - CountChar(word[2..], '-')
  {
    SegmentsMatchReference(word[2..], 0);
    CamelCaseReferenceSpec(word[2..], false);
  }

  /** Past index 0 the exact index of a part does not matter. */
  lemma {:induction false} JoinSegmentsLaterIndex(parts: seq<string>, i: nat, j: nat)
    requires i > 0 && j > 0
    ensures JoinSegments(parts, i) == JoinSegments(parts, j)
    decreases |parts|
  {
    if |parts| > 0 {
      JoinSegmentsLaterIndex(parts[1..], i + 1, j + 1);
    }
  }

  /** The split-and-join loop agrees with the character-level description. */
  lemma {:induction false} SegmentsMatchReference(s: string, i: nat)
    ensures JoinSegments(Split(s, '-'), i) == CamelCaseReference(s, i > 0)
    decreases |s|
  {
    if |s| == 0 {
    } else if s[0] == '-' {
      var rest := Split(s[1..], '-');
      assert Split(s, '-') == [""] + rest;
      JoinSegmentsEmptyHead(rest, i);
      SegmentsMatchReference(s[1..], i + 1);
    } else {
      SegmentsMatchReference(s[1..], 0);
      SegmentsMatchReferenceLetter(s, i);
    }
  }

  /** An empty first part contributes nothing. */
  lemma JoinSegmentsEmptyHead(rest: seq<string>, i: nat)
    ensures JoinSegments([""] + rest, i) == JoinSegments(rest, i + 1)
  {
    assert ([""] + rest)[1..] == rest;
  }

  /** The inductive step of `SegmentsMatchReference` for a first character other than `-`. */
  lemma SegmentsMatchReferenceLetter(s: string, i: nat)
    requires |s| > 0 && s[0] != '-'
    requires JoinSegments(Split(s[1..], '-'), 0) == CamelCaseReference(s[1..], false)
    ensures JoinSegments(Split(s, '-'), i) == CamelCaseReference(s, i > 0)
  {
    var c := if i > 0 then ToUpperAscii(s[0]) else s[0];
    JoinSegmentsOfLetter(s, i);
    assert CamelCaseReference(s, i > 0) == [c] + CamelCaseReference(s[1..], false);
  }

  /** A leading character other than `-` lands at the front of the result, upper-cased
      when its part is not the first. */
  lemma JoinSegmentsOfLetter(s: string, i: nat)
    requires |s| > 0 && s[0] != '-'
    ensures JoinSegments(Split(s, '-'), i)
      == [if i > 0 then ToUpperAscii(s[0]) else s[0]] + JoinSegments(Split(s[1..], '-'), 0)
  {
    var rest := Split(s[1..], '-');
    SplitOfLetter(s, '-');
    assert [rest[0]] + rest[1..] == rest;
    JoinSegmentsExtendHead(s[0], rest[0], rest[1..], i);
  }

  /** Prepending a character to the first part prepends it, possibly upper-cased, to the result. */
  lemma JoinSegmentsExtendHead(x: char, p: string, tail: seq<string>, i: nat)
    ensures JoinSegments([[x] + p] + tail, i)
      == [if i > 0 then ToUpperAscii(x) else x] + JoinSegments([p] + tail, 0)
  {
    var c := if i > 0 then ToUpperAscii(x) else x;
    ExtendedHeadSegments(x, p, tail, i);
    FirstSegmentsAtZero(p, tail);
    AppendAssociative([c], p, JoinSegments(tail, 1));
  }

  /** The loop over `[p] + tail` from index 0 copies `p`, then handles the rest as at index 1. */
  lemma FirstSegmentsAtZero(p: string, tail: seq<string>)
    ensures JoinSegments([p] + tail, 0) == p + JoinSegments(tail, 1)
  {
    JoinSegmentsCons(p, tail, 0);
  }

  /** Concatenation is associative. */
  lemma AppendAssociative(a: string, b: string, d: string)
    ensures (a + b) + d == a + (b + d)
  {
  }

  /** The loop over a first part `[x] + p`: that part's segment, then the rest as at index 1. */
  lemma ExtendedHeadSegments(x: char, p: string, tail: seq<string>, i: nat)
    ensures JoinSegments([[x] + p] + tail, i)
      == ([if i > 0 then ToUpperAscii(x) else x] + p) + JoinSegments(tail, 1)
  {
    JoinSegmentsCons([x] + p, tail, i);
    SegmentExtend(x, p, i);
    JoinSegmentsLaterIndex(tail, i + 1, 1);
  }

  /** The loop over `[head] + tail` handles `head`, then the rest at the next index. */
  lemma JoinSegmentsCons(head: string, tail: seq<string>, i: nat)
    ensures JoinSegments([head] + tail, i) == Segment(head, i) + JoinSegments(tail, i + 1)
  {
    assert ([head] + tail)[1..] == tail;
  }

  /** A part starting with `x` contributes `x`, upper-cased past index 0, then the rest. */
  lemma SegmentExtend(x: char, p: string, i: nat)
    ensures Segment([x] + p, i) == [if i > 0 then ToUpperAscii(x) else x] + p
  {
    assert ([x] + p)[0] == x && ([x] + p)[1..] == p;
  }

  /** A word without `-` is copied unchanged. */
  lemma {:induction false} ReferenceOfPlainWord(w: string)
    requires '-' !in w
    ensures CamelCaseReference(w, false) == w
    decreases |w|
  {
    if |w| > 0 {
      assert '-' !in w[1..] by { assert forall x :: x in w[1..] ==> x in w; }
      ReferenceOfPlainWord(w[1..]);
      assert [w[0]] + w[1..] == w;
    }
  }

  /** A non-empty word without `-` that follows a `-` is capitalised. */
  lemma ReferenceOfPlainWordAfterDash(w: string)
    requires '-' !in w && |w| > 0
    ensures CamelCaseReference(w, true) == Capitalised(w)
  {
    assert '-' !in w[1..] by { assert forall x :: x in w[1..] ==> x in w; }
    ReferenceOfPlainWord(w[1..]);
  }

  /** A `-` in front only marks the next character as following a dash. */
  lemma ReferenceAfterDash(b: string, afterDash: bool)
    ensures CamelCaseReference("-" + b, afterDash) == CamelCaseReference(b, true)
  {
    assert ("-" + b)[0] == '-' && ("-" + b)[1..] == b;
  }

  /** Converting `a + b`, where `a` does not end in `-`, converts the two pieces separately. */
  lemma {:induction false} ReferenceAppend(a: string, b: string, afterDash: bool)
    requires |a| > 0 && a[|a| - 1] != '-'
    ensures CamelCaseReference(a + b, afterDash) == CamelCaseReference(a, afterDash) + CamelCaseReference(b, false)
    decreases |a|
  {
    assert (a + b)[0] == a[0];
    assert (a + b)[1..] == a[1..] + b;
    if |a| > 1 {
      ReferenceAppend(a[1..], b, a[0] == '-');
    } else {
      assert a[1..] + b == b;
    }
  }

  /** The upper-cased form of a part after the first: its first character upper-cased. */
  function Capitalised(w: string): string
    requires |w| > 0
  {
    [ToUpperAscii(w[0])] + w[1..]
  }

  /** Two parts: the first is copied, the second capitalised (`--foo-bar` gives `fooBar`). */
  lemma TwoParts(a: string, b: string)
    requires '-' !in a && '-' !in b && |a| > 0 && |b| > 0
    ensures KababCaseToCamelCase("--" + a + "-" + b) == a + Capitalised(b)
  {
    var w := "--" + a + "-" + b;
    assert w[2..] == a + ("-" + b);
    assert CamelCaseReference(a + ("-" + b), false) == a + Capitalised(b) by {
      ReferenceAppend(a, "-" + b, false);
      ReferenceOfPlainWord(a);
      ReferenceAfterDash(b, false);
      ReferenceOfPlainWordAfterDash(b);
    }
    KababCaseToCamelCaseSpec(w);
  }

  /** An empty part between two parts vanishes (`--foo--bar` gives `fooBar`). */
  lemma EmptyMiddlePart(a: string, b: string)
    requires '-' !in a && '-' !in b && |a| > 0 && |b| > 0
    ensures KababCaseToCamelCase("--" + a + "--" + b) == a + Capitalised(b)
  {
    var w := "--" + a + "--" + b;
    assert w[2..] == a + ("-" + ("-" + b));
    assert CamelCaseReference(a + ("-" + ("-" + b)), false) == a + Capitalised(b) by {
      ReferenceAppend(a, "-" + ("-" + b), false);
      ReferenceOfPlainWord(a);
      ReferenceAfterDash("-" + b, false);
      ReferenceAfterDash(b, true);
      ReferenceOfPlainWordAfterDash(b);
    }
    KababCaseToCamelCaseSpec(w);
  }

  /** A leading empty part vanishes, yet the next part still counts as a later part
      and is capitalised (`---foo` gives `Foo`). */
  lemma EmptyFirstPart(b: string)
    requires '-' !in b && |b| > 0
    ensures KababCaseToCamelCase("---" + b) == Capitalised(b)
  {
    var w := "---" + b;
    assert w[2..] == "-" + b;
    assert CamelCaseReference("-" + b, false) == Capitalised(b) by {
      ReferenceAfterDash(b, false);
      ReferenceOfPlainWordAfterDash(b);
    }
    KababCaseToCamelCaseSpec(w);
  }

  /** A single part is copied unchanged, and whatever the first two characters are
      they are dropped (`--foo` gives `foo`, `xyfoo` gives `foo`). */
  lemma OnePart(p: char, q: char, a: string)
    requires '-' !in a
    ensures KababCaseToCamelCase([p, q] + a) == a
  {
    var w := [p, q] + a;
    assert w[2..] == a;
    ReferenceOfPlainWord(a);
    KababCaseToCamelCaseSpec(w);
  }

  /** `--foo-bar` gives `fooBar`. */
  lemma ExampleTwoParts()
    ensures KababCaseToCamelCase("--foo-bar") == "fooBar"
  {
    var a, b := "foo", "bar";
    assert "--" + a + "-" + b == "--foo-bar";
    assert a + Capitalised(b) == "fooBar";
    TwoParts(a, b);
  }

  /** `--foo` gives `foo`, and `--` the empty string. */
  lemma ExampleOnePart()
    ensures KababCaseToCamelCase("--foo") == "foo"
    ensures KababCaseToCamelCase("--") == ""
  {
    assert ['-', '-'] + "foo" == "--foo";
    assert ['-', '-'] + "" == "--";
    OnePart('-', '-', "foo");
    OnePart('-', '-', "");
  }

  /** The empty segment of `--foo--bar` is skipped: it gives `fooBar`. */
  lemma ExampleEmptyMiddlePart()
    ensures KababCaseToCamelCase("--foo--bar") == "fooBar"
  {
    var a, b := "foo", "bar";
    assert "--" + a + "--" + b == "--foo--bar";
    assert a + Capitalised(b) == "fooBar";
    EmptyMiddlePart(a, b);
  }

  /** `---foo` gives `Foo`: its only non-empty segment has index 1. */
  lemma ExampleEmptyFirstPart()
    ensures KababCaseToCamelCase("---foo") == "Foo"
  {
    var b := "foo";
    assert "---" + b == "---foo";
    assert Capitalised(b) == "Foo";
    EmptyFirstPart(b);
  }

  // ---------------------------------------------------------------------------
  // The map version.

  /** `order` lists every key of `source` exactly once: one possible iteration order
      of a Go map, which the language leaves unspecified. */
  predicate IsIterationOrder(order: seq<string>, source: map<string, string>)
  {
    && (forall i, j :: 0 <= i < j < |order| ==> order[i] != order[j])
    && (forall k :: k in source ==> k in order)
    && (forall i :: 0 <= i < |order| ==> order[i] in source)
  }

  /** Every key can be converted (has at least two characters). */
  predicate ConvertibleKeys(source: map<string, string>)
  {
    forall k :: k in source ==> |k| >= 2
  }

  /** No two keys of `source` convert to the same name. */
  predicate ConversionInjective(source: map<string, string>)
    requires ConvertibleKeys(source)
  {
    forall k1, k2 :: k1 in source && k2 in source && k1 != k2 ==>
      KababCaseToCamelCase(k1) != KababCaseToCamelCase(k2)
  }

  /** The conversion extended to every string (short keys, which the parser never
      produces and Go would panic on, are left as they are), so that it can be passed
      as a total function. */
  function ConvertKey(k: string): string
  {
    if |k| >= 2 then KababCaseToCamelCase(k) else k
  }

  /** `f` sends no two keys of `source` to the same key. */
  predicate InjectiveOn(source: map<string, string>, f: string -> string)
  {
    forall k1, k2 :: k1 in source && k2 in source && k1 != k2 ==> f(k1) != f(k2)
  }

  /** The loop of `KababCaseToCamelCaseMapKeys` run over the keys in `order`, with the
      key conversion `f`. */
  function RemapKeys(source: map<string, string>, order: seq<string>, f: string -> string): map<string, string>
    requires forall i :: 0 <= i < |order| ==> order[i] in source
    decreases |order|
  {
    if |order| == 0 then map[]
    else
      var last := order[|order| - 1];
      RemapKeys(source, order[..|order| - 1], f)[f(last) := source[last]]
  }

  /** `order[i]` is the last key in `order` converting to `k'`, and `r` maps `k'` to its value. */
  predicate LastWriter(source: map<string, string>, order: seq<string>, f: string -> string,
                       r: map<string, string>, k': string, i: int)
    requires forall i :: 0 <= i < |order| ==> order[i] in source
  {
    && 0 <= i < |order|
    && f(order[i]) == k'
    && k' in r && r[k'] == source[order[i]]
    && forall j :: i < j < |order| ==> f(order[j]) != k'
  }

  /** Each listed key's conversion is present, and each step adds at most one entry. */
  lemma {:induction false} RemapKeysCovers(source: map<string, string>, order: seq<string>, f: string -> string)
    requires forall i :: 0 <= i < |order| ==> order[i] in source
    ensures forall i :: 0 <= i < |order| ==> f(order[i]) in RemapKeys(source, order, f)
    ensures |RemapKeys(source, order, f)| <= |order|
    decreases |order|
  {
    if |order| > 0 {
      var n := |order| - 1;
      var init := order[..n];
      RemapKeysCovers(source, init, f);
      forall i | 0 <= i < n
        ensures f(order[i]) in RemapKeys(source, order, f)
      {
        assert order[i] == init[i];
      }
    }
  }

  /** Each key of the result carries the value of the last key in `order` converting to it. */
  lemma {:induction false} RemapKeysLastWriter(source: map<string, string>, order: seq<string>, f: string -> string)
    requires forall i :: 0 <= i < |order| ==> order[i] in source
    ensures forall k' :: k' in RemapKeys(source, order, f) ==>
      exists i :: LastWriter(source, order, f, RemapKeys(source, order, f), k', i)
    decreases |order|
  {
    if |order| > 0 {
      var n := |order| - 1;
      var init := order[..n];
      var last := order[n];
      var prev := RemapKeys(source, init, f);
      var c := f(last);
      var r := prev[c := source[last]];
      assert RemapKeys(source, order, f) == r;
      RemapKeysLastWriter(source, init, f);
      forall k' | k' in r
        ensures exists i :: LastWriter(source, order, f, r, k', i)
      {
        if k' == c {
          assert LastWriter(source, order, f, r, k', n);
        } else {
          assert k' in prev;
          var i :| LastWriter(source, init, f, prev, k', i);
          assert order[i] == init[i];
          forall j | i < j < |order|
            ensures f(order[j]) != k'
          {
            if j < n {
              assert order[j] == init[j];
            }
          }
          assert LastWriter(source, order, f, r, k', i);
        }
      }
    }
  }

  /** With an injective `f`, each key lands at its image with its own value, and
      nothing else is in the result. */
  lemma RemapKeysInjective(source: map<string, string>, order: seq<string>, f: string -> string)
    requires IsIterationOrder(order, source)
    requires InjectiveOn(source, f)
    ensures var r := RemapKeys(source, order, f);
      forall k :: k in source ==> f(k) in r && r[f(k)] == source[k]
    ensures var r := RemapKeys(source, order, f);
      forall k' :: k' in r ==> exists k :: k in source && f(k) == k'
  {
    var r := RemapKeys(source, order, f);
    RemapKeysCovers(source, order, f);
    RemapKeysLastWriter(source, order, f);
    forall k | k in source
      ensures f(k) in r && r[f(k)] == source[k]
    {
      var i0 :| 0 <= i0 < |order| && order[i0] == k;
      assert f(order[i0]) in r;
      var i :| LastWriter(source, order, f, r, f(k), i);
      assert order[i] in source && f(order[i]) == f(k);
    }
    forall k' | k' in r
      ensures exists k :: k in source && f(k) == k'
    {
      var i :| LastWriter(source, order, f, r, k', i);
      assert order[i] in source && f(order[i]) == k';
    }
  }

  /** With an injective `f`, the iteration order does not matter. */
  lemma RemapKeysOrderIrrelevant(source: map<string, string>, order1: seq<string>, order2: seq<string>,
                                 f: string -> string)
    requires IsIterationOrder(order1, source) && IsIterationOrder(order2, source)
    requires InjectiveOn(source, f)
    ensures RemapKeys(source, order1, f) == RemapKeys(source, order2, f)
  {
    var r1 := RemapKeys(source, order1, f);
    var r2 := RemapKeys(source, order2, f);
    RemapKeysInjective(source, order1, f);
    RemapKeysInjective(source, order2, f);
    forall k' | k' in r1
      ensures k' in r2 && r2[k'] == r1[k']
    {
      var k :| k in source && f(k) == k';
    }
    forall k' | k' in r2
      ensures k' in r1
    {
      var k :| k in source && f(k) == k';
    }
    assert r1.Keys == r2.Keys;
  }

  /** On convertible keys the total conversion is the conversion. */
  lemma ConvertKeyInjective(source: map<string, string>)
    requires ConvertibleKeys(source) && ConversionInjective(source)
    ensures InjectiveOn(source, ConvertKey)
  {
  }

  /** Go's `KababCaseToCamelCaseMapKeys`, iterating `source` in `order`. */
  function KababCaseToCamelCaseMapKeys(source: map<string, string>, order: seq<string>): map<string, string>
    requires IsIterationOrder(order, source)
    requires ConvertibleKeys(source)
  {
    RemapKeys(source, order, ConvertKey)
  }

  /** Every key of the result is the conversion of a source key and carries that key's
      value, every source key's conversion is present, there are no more entries than
      in the source, and when no two keys convert alike each converted key carries its
      own value. */
  lemma KababCaseToCamelCaseMapKeysSpec(source: map<string, string>, order: seq<string>)
    requires IsIterationOrder(order, source)
    requires ConvertibleKeys(source)
    ensures var r := KababCaseToCamelCaseMapKeys(source, order);
      forall k :: k in source ==> KababCaseToCamelCase(k) in r
    ensures var r := KababCaseToCamelCaseMapKeys(source, order);
      forall k' :: k' in r ==> exists k :: k in source && KababCaseToCamelCase(k) == k' && r[k'] == source[k]
    ensures |KababCaseToCamelCaseMapKeys(source, order)| <= |source|
    ensures ConversionInjective(source) ==>
      var r := KababCaseToCamelCaseMapKeys(source, order);
      forall k :: k in source ==> r[KababCaseToCamelCase(k)] == source[k]
  {
    var r := RemapKeys(source, order, ConvertKey);
    RemapKeysCovers(source, order, ConvertKey);
    RemapKeysLastWriter(source, order, ConvertKey);
    DistinctOrderCovers(order, source);
    forall k | k in source
      ensures KababCaseToCamelCase(k) in r
    {
      var i :| 0 <= i < |order| && order[i] == k;
      assert ConvertKey(order[i]) in r;
    }
    forall k' | k' in r
      ensures exists k :: k in source && KababCaseToCamelCase(k) == k' && r[k'] == source[k]
    {
      var i :| LastWriter(source, order, ConvertKey, r, k', i);
      var k := order[i];
      assert ConvertKey(k) == KababCaseToCamelCase(k);
      assert k in source && KababCaseToCamelCase(k) == k' && r[k'] == source[k];
    }
    if ConversionInjective(source) {
      ConvertKeyInjective(source);
      RemapKeysInjective(source, order, ConvertKey);
      forall k | k in source
        ensures r[KababCaseToCamelCase(k)] == source[k]
      {
        assert ConvertKey(k) == KababCaseToCamelCase(k);
      }
    }
  }

  /** A duplicate-free listing of the keys has as many elements as there are keys. */
  lemma DistinctOrderCovers(order: seq<string>, source: map<string, string>)
    requires IsIterationOrder(order, source)
    ensures |order| == |source|
  {
    DistinctCardinality(order);
    assert (set i | 0 <= i < |order| :: order[i]) == source.Keys;
  }

  /** A duplicate-free sequence has as many distinct elements as it has elements. */
  lemma {:induction false} DistinctCardinality(xs: seq<string>)
    requires forall i, j :: 0 <= i < j < |xs| ==> xs[i] != xs[j]
    ensures |set i | 0 <= i < |xs| :: xs[i]| == |xs|
  {
    if |xs| > 0 {
      var init := xs[..|xs| - 1];
      DistinctCardinality(init);
      var s := set i | 0 <= i < |init| :: init[i];
      assert (set i | 0 <= i < |xs| :: xs[i]) == s + {xs[|xs| - 1]};
      assert xs[|xs| - 1] !in s;
    }
  }

  /** When no two keys convert alike, the iteration order does not matter. */
  lemma MapKeysOrderIrrelevant(source: map<string, string>, order1: seq<string>, order2: seq<string>)
    requires IsIterationOrder(order1, source) && IsIterationOrder(order2, source)
    requires ConvertibleKeys(source) && ConversionInjective(source)
    ensures KababCaseToCamelCaseMapKeys(source, order1) == KababCaseToCamelCaseMapKeys(source, order2)
  {
    ConvertKeyInjective(source);
    RemapKeysOrderIrrelevant(source, order1, order2, ConvertKey);
  }

  /** Two keys that convert alike: the key visited last wins. */
  lemma CollidingKeysLastWins(k1: string, k2: string, v1: string, v2: string)
    requires k1 != k2 && |k1| >= 2 && |k2| >= 2
    requires KababCaseToCamelCase(k1) == KababCaseToCamelCase(k2)
    ensures IsIterationOrder([k1, k2], map[k1 := v1, k2 := v2])
    ensures KababCaseToCamelCaseMapKeys(map[k1 := v1, k2 := v2], [k1, k2])
      == map[KababCaseToCamelCase(k1) := v2]
  {
    var source := map[k1 := v1, k2 := v2];
    var o := [k1, k2];
    assert o[..1] == [k1];
    assert [k1][..0] == [];
    assert source[k1] == v1 && source[k2] == v2;
    assert RemapKeys(source, [k1], ConvertKey) == map[ConvertKey(k1) := v1];
    assert RemapKeys(source, o, ConvertKey) == RemapKeys(source, [k1], ConvertKey)[ConvertKey(k2) := v2];
    assert map[ConvertKey(k1) := v1][ConvertKey(k2) := v2] == map[KababCaseToCamelCase(k1) := v2];
  }

  /** Two keys that convert alike, such as `--foo-bar` and `--fooBar` (both give
      `fooBar`): which value survives depends on the iteration order. */
  lemma CollidingKeysDependOnOrder(a: string, b: string, v1: string, v2: string)
    requires '-' !in a && '-' !in b && |a| > 0 && |b| > 0 && 'a' <= b[0] <= 'z'
    requires v1 != v2
    ensures var k1 := "--" + a + "-" + b;
      var k2 := "--" + a + Capitalised(b);
      var source := map[k1 := v1, k2 := v2];
      && IsIterationOrder([k1, k2], source)
      && IsIterationOrder([k2, k1], source)
      && KababCaseToCamelCaseMapKeys(source, [k1, k2]) != KababCaseToCamelCaseMapKeys(source, [k2, k1])
  {
    var k1 := "--" + a + "-" + b;
    var k2 := "--" + a + Capitalised(b);
    assert k1 != k2 by {
      assert k1[2 + |a|] == '-' && k2[2 + |a|] != '-';
    }
    assert KababCaseToCamelCase(k1) == KababCaseToCamelCase(k2) by {
      TwoParts(a, b);
      assert '-' !in Capitalised(b) by {
        assert forall x :: x in b[1..] ==> x in b;
      }
      assert '-' !in a + Capitalised(b);
      OnePart('-', '-', a + Capitalised(b));
      assert ['-', '-'] + (a + Capitalised(b)) == k2;
    }
    CollidingKeysLastWins(k1, k2, v1, v2);
    CollidingKeysLastWins(k2, k1, v2, v1);
    assert map[k2 := v2, k1 := v1] == map[k1 := v1, k2 := v2];
    var name := KababCaseToCamelCase(k1);
    assert map[name := v2][name] != map[name := v1][name];
  }
}
