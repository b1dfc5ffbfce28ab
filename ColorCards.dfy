/**
 * The colour cards of the showcase (auto-exec/code.js): the hex label of a
 * colour, the truncated name label, and the loops that turn paint styles,
 * colour variables and, failing those, document fills into one card per
 * distinct colour key.
 *
 * Colour channels are integers 0..255 here; the plug-in obtains them by
 * rounding a 0..1 float times 255. Colour keys are the strings the plug-in
 * builds from the channels; they are inputs.
 */
module ColorCards {
  import opened Geometry

  // ---------------------------------------------------------------------------
  // rgbToHex
  // ---------------------------------------------------------------------------

  /** A colour channel after `Math.round(val * 255)`. */
  newtype Channel = v: int | 0 <= v <= 255

  datatype Rgb = Rgb(r: Channel, g: Channel, b: Channel)

  /** One digit of `Number.prototype.toString(16)`: `0-9`, then lower-case `a-f`. */
  function LowerDigit(d: nat): (c: char)
    requires d < 16
  {
    if d < 10 then (48 + d) as char else (97 + d - 10) as char
  }

  /** `Number.prototype.toString(16)` of a non-negative integer: no leading zeros. */
  function ToBase16(n: nat): string
    decreases n
  {
    if n < 16 then [LowerDigit(n)] else ToBase16(n / 16) + [LowerDigit(n % 16)]
  }

  /** The `toHex` helper: base 16, padded with one `0` when a single digit. */
  function ChannelHex(v: nat): (r: string)
    requires v <= 255
    ensures |r| == 2
  {
    var hex := ToBase16(v);
    assert v >= 16 ==> ToBase16(v / 16) == [LowerDigit(v / 16)];
    if |hex| == 1 then "0" + hex else hex
  }

  /** `String.prototype.toUpperCase` on the characters a hex label can hold. */
  function UpperChar(c: char): char {
    if 'a' <= c <= 'z' then (c as int - 32) as char else c
  }

  function ToUpper(s: string): (u: string)
    ensures |u| == |s|
  {
    if s == [] then [] else [UpperChar(s[0])] + ToUpper(s[1..])
  }

  /** Upper-casing works character by character. */
  lemma {:induction false} ToUpperAppend(s: string, t: string)
    ensures ToUpper(s + t) == ToUpper(s) + ToUpper(t)
  {
    if s != [] {
      assert (s + t)[1..] == s[1..] + t;
      ToUpperAppend(s[1..], t);
    } else {
      assert s + t == t;
    }
  }

  predicate IsUpperHexDigit(c: char) {
    '0' <= c <= '9' || 'A' <= c <= 'F'
  }

  /** The value of an upper-case hex digit. */
  function DigitValue(c: char): (v: nat)
    requires IsUpperHexDigit(c)
    ensures v < 16
  {
    if c <= '9' then c as int - 48 else c as int - 65 + 10
  }

  /** The value of a two-digit upper-case hex string. */
  function PairValue(s: string): (v: nat)
    requires |s| == 2 && IsUpperHexDigit(s[0]) && IsUpperHexDigit(s[1])
    ensures v <= 255
  {
    16 * DigitValue(s[0]) + DigitValue(s[1])
  }

  lemma UpperDigitValue(d: nat)
    requires d < 16
    ensures IsUpperHexDigit(UpperChar(LowerDigit(d)))
    ensures DigitValue(UpperChar(LowerDigit(d))) == d
  {
  }

  /** Each channel becomes exactly two upper-case hex digits that read back as the channel. */
  lemma ChannelHexRoundTrip(v: nat)
    requires v <= 255
    ensures var u := ToUpper(ChannelHex(v));
      |u| == 2 && IsUpperHexDigit(u[0]) && IsUpperHexDigit(u[1]) && PairValue(u) == v
  {
    var hi, lo := v / 16, v % 16;
    if v < 16 {
      assert ChannelHex(v) == [LowerDigit(0), LowerDigit(lo)];
    } else {
      assert ToBase16(hi) == [LowerDigit(hi)];
      assert ChannelHex(v) == [LowerDigit(hi), LowerDigit(lo)];
    }
    UpperDigitValue(hi);
    UpperDigitValue(lo);
    var u := ToUpper([LowerDigit(hi), LowerDigit(lo)]);
    assert u == [UpperChar(LowerDigit(hi)), UpperChar(LowerDigit(lo))] by {
      assert [LowerDigit(hi), LowerDigit(lo)][1..] == [LowerDigit(lo)];
      assert ToUpper([LowerDigit(lo)]) == [UpperChar(LowerDigit(lo))];
    }
    assert PairValue(u) == 16 * hi + lo;
  }

  /**
   * `rgbToHex`: `#` and six upper-case hex digits, two per channel, from
   * which each channel reads back.
   */
  function RgbToHex(r: nat, g: nat, b: nat): (h: string)
    requires r <= 255 && g <= 255 && b <= 255
    ensures |h| == 7 && h[0] == '#'
  {
    ToUpper("#" + ChannelHex(r) + ChannelHex(g) + ChannelHex(b))
  }

  /** The result of `rgbToHex` is an upper-case hex label from which each channel reads back. */
  predicate HexLabelOf(h: string, r: nat, g: nat, b: nat) {
    && |h| == 7 && h[0] == '#'
    && (forall k :: 1 <= k < 7 ==> IsUpperHexDigit(h[k]))
    && PairValue(h[1..3]) == r && PairValue(h[3..5]) == g && PairValue(h[5..7]) == b
  }

  /** `rgbToHex` gives `#` and six upper-case hex digits, two per channel, from which each channel reads back. */
  lemma RgbToHexFormat(r: nat, g: nat, b: nat)
    requires r <= 255 && g <= 255 && b <= 255
    ensures HexLabelOf(RgbToHex(r, g, b), r, g, b)
  {
    var R, G, B := ChannelHex(r), ChannelHex(g), ChannelHex(b);
    ChannelHexRoundTrip(r);
    ChannelHexRoundTrip(g);
    ChannelHexRoundTrip(b);
    ToUpperAppend("#" + R + G, B);
    ToUpperAppend("#" + R, G);
    ToUpperAppend("#", R);
    var h := RgbToHex(r, g, b);
    assert ToUpper("#") == "#";
    assert h == "#" + ToUpper(R) + ToUpper(G) + ToUpper(B);
    assert h[1..3] == ToUpper(R);
    assert h[3..5] == ToUpper(G);
    assert h[5..7] == ToUpper(B);
    forall k | 1 <= k < 7 ensures IsUpperHexDigit(h[k]) {
      if k < 3 { assert h[k] == ToUpper(R)[k - 1]; }
      else if k < 5 { assert h[k] == ToUpper(G)[k - 3]; }
      else { assert h[k] == ToUpper(B)[k - 5]; }
    }
  }

  /** Different colours never share a hex label. */
  lemma RgbToHexInjective(r: nat, g: nat, b: nat, r': nat, g': nat, b': nat)
    requires r <= 255 && g <= 255 && b <= 255 && r' <= 255 && g' <= 255 && b' <= 255
    requires RgbToHex(r, g, b) == RgbToHex(r', g', b')
    ensures r == r' && g == g' && b == b'
  {
    var h, h' := RgbToHex(r, g, b), RgbToHex(r', g', b');
    RgbToHexFormat(r, g, b);
    RgbToHexFormat(r', g', b');
    assert h[1..3] == h'[1..3] && h[3..5] == h'[3..5] && h[5..7] == h'[5..7];
  }

  /** Upper-casing leaves a string without lower-case letters unchanged. */
  lemma {:induction false} ToUpperFixes(s: string)
    requires forall k :: 0 <= k < |s| ==> !('a' <= s[k] <= 'z')
    ensures ToUpper(s) == s
  {
    if s != [] {
      ToUpperFixes(s[1..]);
    }
  }

  /** The second `toUpperCase` of `finalizeColorCard` changes nothing. */
  lemma HexLabelIsUpper(r: nat, g: nat, b: nat)
    requires r <= 255 && g <= 255 && b <= 255
    ensures ToUpper(RgbToHex(r, g, b)) == RgbToHex(r, g, b)
  {
    var h := RgbToHex(r, g, b);
    RgbToHexFormat(r, g, b);
    forall k | 0 <= k < |h| ensures !('a' <= h[k] <= 'z') {
      if k > 0 {
        assert IsUpperHexDigit(h[k]);
      }
    }
    ToUpperFixes(h);
  }

  // ---------------------------------------------------------------------------
  // The name label of a card (finalizeColorCard)
  // ---------------------------------------------------------------------------

  /** Names longer than this are cut. */
  const LabelLimit: nat := 22

  /** A name longer than the limit keeps its first 22 characters and gains `...`. */
  function DisplayName(name: string): (r: string)
    ensures |r| <= LabelLimit + 3
    ensures |name| <= LabelLimit ==> r == name
    ensures |name| > LabelLimit ==> |r| == LabelLimit + 3 && r[..LabelLimit] == name[..LabelLimit]
    ensures |name| > LabelLimit ==> r[LabelLimit..] == "..."
  {
    if |name| > LabelLimit then name[..LabelLimit] + "..." else name
  }

  /** Cutting a label twice gives the label cut once. */
  lemma DisplayNameIdempotent(name: string)
    ensures DisplayName(DisplayName(name)) == DisplayName(name)
  {
    if |name| > LabelLimit {
      var r := DisplayName(name);
      assert r[..LabelLimit] + "..." == r;
    }
  }

  // ---------------------------------------------------------------------------
  // One card per distinct colour key (createColorShowcase)
  // ---------------------------------------------------------------------------

  /**
   * A colour the plug-in found: the key built from its channels and the name
   * shown on its card. For a paint style that name is
   * `StyleDisplayName(style.name, style.key)`, for a variable it is the
   * variable's name, and for a document fill it is the node's name. A style,
   * variable or fill that yields no colour (no solid paint, no collection, a
   * non-colour value, a hidden fill) is `None`.
   */
  datatype ColorEntry = ColorEntry(key: string, name: string, color: Rgb)

  /** A card as appended to the colour grid: its colour key, its name label and its hex label. */
  datatype Card = Card(key: string, caption: string, hex: string)

  /**
   * `finalizeColorCard`: the name label is the truncated name, the hex label
   * is `rgbToHex` upper-cased once more.
   */
  function CardFor(key: string, name: string, color: Rgb): (c: Card)
    ensures c.key == key && |c.caption| <= LabelLimit + 3 && |c.hex| == 7
  {
    Card(key, DisplayName(name), ToUpper(RgbToHex(color.r as nat, color.g as nat, color.b as nat)))
  }

  /**
   * A card carries its colour key, a name label of at most 25 characters, and
   * `#` with six upper-case hex digits from which the colour reads back.
   */
  lemma CardForLabels(key: string, name: string, color: Rgb)
    ensures var c := CardFor(key, name, color);
      c.key == key && |c.caption| <= LabelLimit + 3 && HexLabelOf(c.hex, color.r as nat, color.g as nat, color.b as nat)
  {
    HexLabelIsUpper(color.r as nat, color.g as nat, color.b as nat);
    RgbToHexFormat(color.r as nat, color.g as nat, color.b as nat);
  }

  /** The mark put before the name of a style that comes from a library. */
  const LibraryMark: string := "\U{1F4DA} "

  /**
   * The name shown for a paint style: marked when the style has a non-empty
   * key (a library style), the bare style name otherwise.
   */
  function StyleDisplayName(styleName: string, styleKey: string): (r: string)
    ensures |r| == |styleName| + (if styleKey != "" then |LibraryMark| else 0)
    ensures r[|r| - |styleName|..] == styleName
    ensures styleKey != "" <==> r[..|r| - |styleName|] == LibraryMark
  {
    if styleKey != "" then LibraryMark + styleName else styleName
  }

  /** The entries that yield a colour, in order. */
  function Present(es: seq<Option<ColorEntry>>): seq<ColorEntry>
  {
    if es == [] then [] else (if es[0].Some? then [es[0].value] else []) + Present(es[1..])
  }

  lemma {:induction false} PresentAppend(a: seq<Option<ColorEntry>>, b: seq<Option<ColorEntry>>)
    ensures Present(a + b) == Present(a) + Present(b)
  {
    if a == [] {
      assert a + b == b;
    } else {
      assert (a + b)[0] == a[0];
      assert (a + b)[1..] == a[1..] + b;
      PresentAppend(a[1..], b);
    }
  }

  function KeysOf(es: seq<ColorEntry>): set<string> {
    if es == [] then {} else {es[0].key} + KeysOf(es[1..])
  }

  lemma {:induction false} KeysOfIndex(es: seq<ColorEntry>, j: nat)
    requires j < |es|
    ensures es[j].key in KeysOf(es)
  {
    if j > 0 {
      KeysOfIndex(es[1..], j - 1);
    }
  }

  lemma {:induction false} KeysOfAppend(a: seq<ColorEntry>, b: seq<ColorEntry>)
    ensures KeysOf(a + b) == KeysOf(a) + KeysOf(b)
  {
    if a == [] {
      assert a + b == b;
    } else {
      assert (a + b)[1..] == a[1..] + b;
      KeysOfAppend(a[1..], b);
    }
  }

  /** No two entries share a key. */
  predicate DistinctKeys(es: seq<ColorEntry>) {
    forall i, j :: 0 <= i < j < |es| ==> es[i].key != es[j].key
  }

  /**
   * The entries whose key is neither in `seen` nor carried by an earlier
   * entry: the first occurrence of every new key, in input order.
   */
  function KeepNew(seen: set<string>, es: seq<ColorEntry>): (r: seq<ColorEntry>)
    ensures |r| <= |es|
    ensures r == [] ==> forall k :: 0 <= k < |es| ==> es[k].key in seen
    decreases |es|
  {
    if es == [] then []
    else if es[0].key in seen then KeepNew(seen, es[1..])
    else [es[0]] + KeepNew(seen + {es[0].key}, es[1..])
  }

  /** The first entry of `es` carrying `key`. */
  function FirstWith(es: seq<ColorEntry>, key: string): (e: ColorEntry)
    requires key in KeysOf(es)
    ensures e in es && e.key == key
  {
    if es[0].key == key then es[0] else FirstWith(es[1..], key)
  }

  /**
   * The kept entries carry pairwise distinct keys, none of them seen before,
   * and together exactly the new keys of the input.
   */
  lemma {:induction false} KeepNewKeys(seen: set<string>, es: seq<ColorEntry>)
    ensures DistinctKeys(KeepNew(seen, es))
    ensures KeysOf(KeepNew(seen, es)) == KeysOf(es) - seen
    decreases |es|
  {
    if es != [] {
      var e := es[0];
      if e.key in seen {
        KeepNewKeys(seen, es[1..]);
      } else {
        var rest := KeepNew(seen + {e.key}, es[1..]);
        KeepNewKeys(seen + {e.key}, es[1..]);
        assert ([e] + rest)[1..] == rest;
        forall j | 0 <= j < |rest| ensures rest[j].key != e.key {
          KeysOfIndex(rest, j);
        }
      }
    }
  }

  /** Every kept entry is the first entry of the input that carries its key. */
  lemma {:induction false} KeepNewFirst(seen: set<string>, es: seq<ColorEntry>)
    ensures forall c :: c in KeepNew(seen, es) ==> c.key in KeysOf(es) && c == FirstWith(es, c.key)
    decreases |es|
  {
    if es != [] {
      var e := es[0];
      var rest := if e.key in seen then KeepNew(seen, es[1..]) else KeepNew(seen + {e.key}, es[1..]);
      KeepNewFirst(if e.key in seen then seen else seen + {e.key}, es[1..]);
      KeepNewKeys(if e.key in seen then seen else seen + {e.key}, es[1..]);
      forall c | c in rest ensures c.key in KeysOf(es) && c == FirstWith(es, c.key) {
        var j :| 0 <= j < |rest| && rest[j] == c;
        KeysOfIndex(rest, j);
      }
    }
  }

  /** A distinct-keyed list has as many entries as keys. */
  lemma {:induction false} DistinctKeysCount(es: seq<ColorEntry>)
    requires DistinctKeys(es)
    ensures |KeysOf(es)| == |es|
  {
    if es != [] {
      var e := es[0];
      if e.key in KeysOf(es[1..]) {
        KeysOfWitness(es[1..], e.key);
        assert false;
      }
      DistinctKeysCount(es[1..]);
    }
  }

  /** A key of the list is carried by one of its entries. */
  lemma {:induction false} KeysOfWitness(es: seq<ColorEntry>, k: string)
    requires k in KeysOf(es)
    ensures exists j :: 0 <= j < |es| && es[j].key == k
  {
    if es[0].key == k {
      assert es[0].key == k;
    } else {
      KeysOfWitness(es[1..], k);
      var j :| 0 <= j < |es[1..]| && es[1..][j].key == k;
      assert es[j + 1].key == k;
    }
  }

  /** Processing two lists one after the other keeps what processing their concatenation keeps. */
  lemma {:induction false} KeepNewAppend(seen: set<string>, a: seq<ColorEntry>, b: seq<ColorEntry>)
    ensures KeepNew(seen, a + b) == KeepNew(seen, a) + KeepNew(seen + KeysOf(a), b)
    decreases |a|
  {
    if a == [] {
      assert a + b == b;
      assert seen + KeysOf(a) == seen;
    } else {
      var e := a[0];
      assert (a + b)[1..] == a[1..] + b;
      if e.key in seen {
        KeepNewAppend(seen, a[1..], b);
        assert seen + KeysOf(a[1..]) == seen + KeysOf(a);
      } else {
        KeepNewAppend(seen + {e.key}, a[1..], b);
        assert seen + {e.key} + KeysOf(a[1..]) == seen + KeysOf(a);
      }
    }
  }

  /** The cards for library colours: the name label is the truncated style or variable name. */
  function LibraryCards(es: seq<ColorEntry>): seq<Card>
  {
    if es == [] then [] else [CardFor(es[0].key, es[0].name, es[0].color)] + LibraryCards(es[1..])
  }

  /** A document colour is labelled with its node's name, or `Document Color` when that is empty. */
  function DocumentLabelName(nodeName: string): (r: string)
    ensures r != ""
    ensures nodeName != "" ==> r == nodeName
  {
    if nodeName == "" then "Document Color" else nodeName
  }

  function DocumentCards(es: seq<ColorEntry>): seq<Card>
  {
    if es == [] then [] else [CardFor(es[0].key, DocumentLabelName(es[0].name), es[0].color)] + DocumentCards(es[1..])
  }

  /** The kept part of one more entry: its colour when that is present and new. */
  function Fresh(seen: set<string>, o: Option<ColorEntry>): seq<ColorEntry> {
    if o.Some? && o.value.key !in seen then [o.value] else []
  }

  /** The key of one more entry, if it has a colour. */
  function KeyOf(o: Option<ColorEntry>): set<string> {
    if o.Some? then {o.value.key} else {}
  }

  /** One more loop iteration: how the keys and the kept entries of a prefix grow. */
  lemma PrefixStep(seen0: set<string>, es: seq<Option<ColorEntry>>, i: nat)
    requires i < |es|
    ensures KeysOf(Present(es[..i + 1])) == KeysOf(Present(es[..i])) + KeyOf(es[i])
    ensures KeepNew(seen0, Present(es[..i + 1]))
         == KeepNew(seen0, Present(es[..i])) + Fresh(seen0 + KeysOf(Present(es[..i])), es[i])
  {
    var step := if es[i].Some? then [es[i].value] else [];
    TakeOneMore(es, i);
    PresentAppend(es[..i], [es[i]]);
    assert [es[i]][1..] == [];
    assert Present([es[i]]) == step;
    KeysOfAppend(Present(es[..i]), step);
    KeepNewAppend(seen0, Present(es[..i]), step);
    if es[i].Some? {
      assert step[1..] == [];
    }
  }

  /**
   * One loop over paint styles or colour variables: a colour whose key is not
   * yet in `processedColors` is added to it, gets a card, and is counted.
   */
  method AddLibraryCards(entries: seq<Option<ColorEntry>>, processed0: set<string>, cards0: seq<Card>, count0: nat)
    returns (processedColors: set<string>, cards: seq<Card>, colorCount: nat)
    ensures processedColors == processed0 + KeysOf(Present(entries))
    ensures cards == cards0 + LibraryCards(KeepNew(processed0, Present(entries)))
    ensures colorCount == count0 + |KeepNew(processed0, Present(entries))|
    ensures colorCount + |cards0| == count0 + |cards|
  {
    processedColors, cards, colorCount := processed0, cards0, count0;
    for i := 0 to |entries|
      invariant processedColors == processed0 + KeysOf(Present(entries[..i]))
      invariant cards == cards0 + LibraryCards(KeepNew(processed0, Present(entries[..i])))
      invariant colorCount == count0 + |KeepNew(processed0, Present(entries[..i]))|
      invariant colorCount + |cards0| == count0 + |cards|
    {
      LibraryStep(processed0, cards0, entries, i, processedColors, cards);
      FreshCard(processedColors, entries[i]);
      if entries[i].Some? {
        var color := entries[i].value;
        if color.key !in processedColors {
          processedColors := processedColors + {color.key};
          cards := cards + [CardFor(color.key, color.name, color.color)];
          colorCount := colorCount + 1;
        }
      }
    }
    assert entries[..|entries|] == entries;
  }

  /** One iteration of the style or variable loop keeps the loop's invariant. */
  lemma LibraryStep(processed0: set<string>, cards0: seq<Card>, entries: seq<Option<ColorEntry>>, i: nat,
                    processed: set<string>, cards: seq<Card>)
    requires i < |entries|
    requires processed == processed0 + KeysOf(Present(entries[..i]))
    requires cards == cards0 + LibraryCards(KeepNew(processed0, Present(entries[..i])))
    ensures processed + KeyOf(entries[i]) == processed0 + KeysOf(Present(entries[..i + 1]))
    ensures cards + LibraryCards(Fresh(processed, entries[i]))
         == cards0 + LibraryCards(KeepNew(processed0, Present(entries[..i + 1])))
    ensures |KeepNew(processed0, Present(entries[..i + 1]))|
         == |KeepNew(processed0, Present(entries[..i]))| + |Fresh(processed, entries[i])|
  {
    var before, added := KeepNew(processed0, Present(entries[..i])), Fresh(processed, entries[i]);
    PrefixStep(processed0, entries, i);
    LibraryCardsAppend(before, added);
  }

  /** The card one more style or variable adds, if any. */
  lemma FreshCard(seen: set<string>, o: Option<ColorEntry>)
    ensures LibraryCards(Fresh(seen, o))
         == if o.Some? && o.value.key !in seen then [CardFor(o.value.key, o.value.name, o.value.color)] else []
  {
  }

  lemma {:induction false} LibraryCardsAppend(a: seq<ColorEntry>, b: seq<ColorEntry>)
    ensures LibraryCards(a + b) == LibraryCards(a) + LibraryCards(b)
  {
    if a == [] {
      assert a + b == b;
    } else {
      assert (a + b)[1..] == a[1..] + b;
      LibraryCardsAppend(a[1..], b);
    }
  }

  /**
   * The `uniqueColors` map of the document fallback: the first fill seen for
   * each key, kept in insertion order.
   */
  method UniqueDocumentColors(fills: seq<Option<ColorEntry>>) returns (uniqueColors: seq<ColorEntry>)
    ensures uniqueColors == KeepNew({}, Present(fills))
  {
    uniqueColors := [];
    var keys: set<string> := {};
    for i := 0 to |fills|
      invariant keys == KeysOf(Present(fills[..i]))
      invariant uniqueColors == KeepNew({}, Present(fills[..i]))
    {
      PrefixStep({}, fills, i);
      assert {} + KeysOf(Present(fills[..i])) == keys;
      if fills[i].Some? {
        var fill := fills[i].value;
        if fill.key !in keys {
          keys := keys + {fill.key};
          uniqueColors := uniqueColors + [fill];
        }
      }
    }
    assert fills[..|fills|] == fills;
  }

  /**
   * The card-producing part of `createColorShowcase`: styles first, then
   * variables, sharing one `processedColors` set; only when that produced no
   * card, one card per distinct document fill colour.
   */
  method ShowcaseColors(styles: seq<Option<ColorEntry>>, variables: seq<Option<ColorEntry>>,
                        documentFills: seq<Option<ColorEntry>>)
    returns (cards: seq<Card>, colorCount: nat)
    ensures cards == Showcase(styles, variables, documentFills)
    ensures colorCount == |cards|
  {
    var processedColors: set<string> := {};
    cards, colorCount := [], 0;
    ghost var first := KeepNew({}, Present(styles));
    ghost var second := KeepNew({} + KeysOf(Present(styles)), Present(variables));
    ghost var library := KeepNew({}, Present(styles) + Present(variables));
    processedColors, cards, colorCount := AddLibraryCards(styles, processedColors, cards, colorCount);
    assert cards == LibraryCards(first) && colorCount == |first|;
    processedColors, cards, colorCount := AddLibraryCards(variables, processedColors, cards, colorCount);
    assert cards == LibraryCards(first) + LibraryCards(second) && colorCount == |first| + |second|;
    LibraryJoin(Present(styles), Present(variables));
    assert cards == LibraryCards(library) && colorCount == |library| == |cards|;
    if colorCount == 0 {
      assert library == [];
      cards, colorCount := DocumentFallback(documentFills);
    }
  }

  /**
   * The fallback when no style or variable yields a colour: one card per
   * distinct document fill colour, in the order the colours were first met.
   */
  method DocumentFallback(documentFills: seq<Option<ColorEntry>>) returns (cards: seq<Card>, colorCount: nat)
    ensures cards == DocumentCards(KeepNew({}, Present(documentFills)))
    ensures colorCount == |cards|
  {
    var uniqueColors := UniqueDocumentColors(documentFills);
    cards, colorCount := [], 0;
    for i := 0 to |uniqueColors|
      invariant cards == DocumentCards(uniqueColors[..i])
      invariant colorCount == i == |cards|
    {
      var data := uniqueColors[i];
      DocumentStep(uniqueColors, i);
      cards := cards + [CardFor(data.key, DocumentLabelName(data.name), data.color)];
      colorCount := colorCount + 1;
    }
    assert uniqueColors[..|uniqueColors|] == uniqueColors;
  }

  /** One pass of the fallback loop appends the card of the next document colour. */
  lemma DocumentStep(es: seq<ColorEntry>, i: nat)
    requires i < |es|
    ensures DocumentCards(es[..i + 1])
         == DocumentCards(es[..i]) + [CardFor(es[i].key, DocumentLabelName(es[i].name), es[i].color)]
  {
    TakeOneMore(es, i);
    DocumentCardsAppend(es[..i], [es[i]]);
  }

  /** A prefix one longer is the prefix and the next element. */
  lemma TakeOneMore<T>(s: seq<T>, i: nat)
    requires i < |s|
    ensures s[..i + 1] == s[..i] + [s[i]]
  {
  }

  /** The styles loop followed by the variables loop de-duplicates their concatenation. */
  lemma LibraryJoin(s: seq<ColorEntry>, v: seq<ColorEntry>)
    ensures var first, second := KeepNew({}, s), KeepNew({} + KeysOf(s), v);
      && LibraryCards(first) + LibraryCards(second) == LibraryCards(KeepNew({}, s + v))
      && |first| + |second| == |KeepNew({}, s + v)|
  {
    KeepNewAppend({}, s, v);
    LibraryCardsAppend(KeepNew({}, s), KeepNew({} + KeysOf(s), v));
  }

  lemma {:induction false} DocumentCardsAppend(a: seq<ColorEntry>, b: seq<ColorEntry>)
    ensures DocumentCards(a + b) == DocumentCards(a) + DocumentCards(b)
  {
    if a == [] {
      assert a + b == b;
    } else {
      assert (a + b)[1..] == a[1..] + b;
      DocumentCardsAppend(a[1..], b);
    }
  }

  /**
   * The cards `createColorShowcase` appends: the library cards when styles
   * or variables yield any colour, the document cards otherwise.
   */
  function Showcase(styles: seq<Option<ColorEntry>>, variables: seq<Option<ColorEntry>>,
                    documentFills: seq<Option<ColorEntry>>): (r: seq<Card>)
    ensures r == [] <==> Present(styles) + Present(variables) == [] && Present(documentFills) == []
  {
    var library := KeepNew({}, Present(styles) + Present(variables));
    if library != [] then LibraryCards(library) else DocumentCards(KeepNew({}, Present(documentFills)))
  }

  /** A colour key yields at most one card. */
  lemma ShowcaseKeysDistinct(styles: seq<Option<ColorEntry>>, variables: seq<Option<ColorEntry>>,
                             documentFills: seq<Option<ColorEntry>>)
    ensures var cards := Showcase(styles, variables, documentFills);
      forall i, j :: 0 <= i < j < |cards| ==> cards[i].key != cards[j].key
  {
    var library := Present(styles) + Present(variables);
    KeepNewCount(library);
    KeepNewCount(Present(documentFills));
    CardsFollowEntries(KeepNew({}, library));
    CardsFollowEntries(KeepNew({}, Present(documentFills)));
  }

  /**
   * The cards number the distinct keys: those of the styles and variables,
   * or, when they have none, those of the document fills.
   */
  lemma ShowcaseCountsDistinctKeys(styles: seq<Option<ColorEntry>>, variables: seq<Option<ColorEntry>>,
                                   documentFills: seq<Option<ColorEntry>>)
    ensures var library := Present(styles) + Present(variables);
      |Showcase(styles, variables, documentFills)|
        == if KeysOf(library) != {} then |KeysOf(library)| else |KeysOf(Present(documentFills))|
  {
    var library := Present(styles) + Present(variables);
    KeepNewCount(library);
    KeepNewCount(Present(documentFills));
    CardsFollowEntries(KeepNew({}, library));
    CardsFollowEntries(KeepNew({}, Present(documentFills)));
  }

  /**
   * The solid fills the showcase itself has put on the page by the time the
   * fallback scans it, in tree order: the white container, the title, the
   * subtitle, the divider and the info text. Keys are what `toFixed(3)` gives
   * for their channels, channels are `Math.round(v * 255)`, and a text node
   * carries the host's default name, its characters.
   */
  const ShowcaseFills: seq<Option<ColorEntry>> := [
    Some(ColorEntry("1.000-1.000-1.000", "DS19 Color Showcase", Rgb(255, 255, 255))),
    Some(ColorEntry("0.100-0.100-0.100", "DS19 Color Library", Rgb(26, 26, 26))),
    Some(ColorEntry("0.400-0.400-0.400", "Displaying colors from your design system", Rgb(102, 102, 102))),
    Some(ColorEntry("0.900-0.900-0.900", "Divider", Rgb(230, 230, 230))),
    Some(ColorEntry("0.500-0.500-0.500", "No library colors loaded. Showing document colors:", Rgb(128, 128, 128)))
  ]

  /**
   * The page scan always ends with the showcase's own fills, so the plug-in
   * never shows an empty showcase: with no library colour it shows at least
   * the five colours of its own frame.
   */
  lemma ShowcaseNeverEmpty(styles: seq<Option<ColorEntry>>, variables: seq<Option<ColorEntry>>,
                           pageFills: seq<Option<ColorEntry>>)
    ensures var cards := Showcase(styles, variables, pageFills + ShowcaseFills);
      cards != [] && (Present(styles) + Present(variables) == [] ==> |cards| >= 5)
  {
    var own := Present(ShowcaseFills);
    ShowcaseFillKeys();
    PresentAppend(pageFills, ShowcaseFills);
    KeysOfAppend(Present(pageFills), own);
    SubsetCard(KeysOf(own), KeysOf(Present(pageFills + ShowcaseFills)));
    ShowcaseCountsDistinctKeys(styles, variables, pageFills + ShowcaseFills);
    if Present(styles) + Present(variables) != [] {
      KeysOfIndex(Present(styles) + Present(variables), 0);
    }
  }

  /** The showcase's own fills carry five different colour keys. */
  lemma ShowcaseFillKeys()
    ensures |KeysOf(Present(ShowcaseFills))| == 5
  {
    var e := seq(5, k requires 0 <= k < 5 => ShowcaseFills[k].value);
    var tail := ShowcaseFills;
    assert Present(tail[4..]) == [e[4]];
    assert Present(tail[3..]) == [e[3]] + Present(tail[4..]);
    assert Present(tail[2..]) == [e[2]] + Present(tail[3..]);
    assert Present(tail[1..]) == [e[1]] + Present(tail[2..]);
    assert Present(tail) == [e[0]] + Present(tail[1..]);
    assert Present(tail) == e;
    assert KeysOf(e[4..]) == {e[4].key};
    assert KeysOf(e[3..]) == {e[3].key} + KeysOf(e[4..]);
    assert KeysOf(e[2..]) == {e[2].key} + KeysOf(e[3..]);
    assert KeysOf(e[1..]) == {e[1].key} + KeysOf(e[2..]);
    assert KeysOf(e) == {e[0].key} + KeysOf(e[1..]);
  }

  /** A subset is no larger than its superset. */
  lemma {:induction false} SubsetCard<T>(a: set<T>, b: set<T>)
    requires a <= b
    ensures |a| <= |b|
    decreases |a|
  {
    if a != {} {
      var x :| x in a;
      SubsetCard(a - {x}, b - {x});
    }
  }

  /** Each entry yields one card carrying its key. */
  lemma {:induction false} CardsFollowEntries(es: seq<ColorEntry>)
    ensures |LibraryCards(es)| == |es| && |DocumentCards(es)| == |es|
    ensures forall k :: 0 <= k < |es| ==> LibraryCards(es)[k].key == es[k].key && DocumentCards(es)[k].key == es[k].key
  {
    if es != [] {
      CardsFollowEntries(es[1..]);
    }
  }

  /** De-duplicating from scratch keeps one entry per distinct key. */
  lemma KeepNewCount(es: seq<ColorEntry>)
    ensures DistinctKeys(KeepNew({}, es))
    ensures KeysOf(KeepNew({}, es)) == KeysOf(es)
    ensures |KeepNew({}, es)| == |KeysOf(es)|
  {
    KeepNewKeys({}, es);
    DistinctKeysCount(KeepNew({}, es));
    assert KeysOf(es) - {} == KeysOf(es);
  }
}
