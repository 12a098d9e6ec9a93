/**
 * The colour switcher: the palette filtered for the current mode, the index
 * of the current colour in it, and the button that moves to the next colour,
 * wrapping around. The donut drawing is not modelled.
 *
 * A palette entry's `name` and `value` are the same word, so an entry is
 * modelled by its colour; the swatch colours it draws are not modelled.
 *
 * The switcher's filter drops black in dark mode and white in light mode,
 * while the provider rejects black in light mode and white in dark mode, so
 * the switcher offers, in each mode, the one colour the provider turns into
 * blue. `AvailableThemes` models the filter as written; `IntendedThemes` is
 * the filter that agrees with the provider.
 */
module ThemeSwitcher {
  import opened ThemeProvider

  /** `colorThemes`, in display order. */
  function Palette(): (p: seq<ColorTheme>)
    ensures |p| == 7
  {
    [Blue, Green, Purple, Orange, Red, Black, White]
  }

  /** The filter callback as written: black is dropped in dark mode and white in light mode. */
  predicate Offered(m: Mode, c: ColorTheme)
  {
    !(m == Dark && c == Black) && !(m == Light && c == White)
  }

  /** `entries.filter(...)` with the callback as written, from position `k` on. */
  function FilterOffered(entries: seq<ColorTheme>, k: nat, m: Mode): (r: seq<ColorTheme>)
    requires k <= |entries|
    ensures |r| <= |entries| - k
    decreases |entries| - k
  {
    if k == |entries| then []
    else (if Offered(m, entries[k]) then [entries[k]] else []) + FilterOffered(entries, k + 1, m)
  }

  /** `availableThemes` for mode `m`. */
  function AvailableThemes(m: Mode): seq<ColorTheme>
  {
    FilterOffered(Palette(), 0, m)
  }

  /** A filtered list holds exactly the offered entries of the original. */
  lemma {:induction false} FilterOfferedMembers(entries: seq<ColorTheme>, k: nat, m: Mode)
    requires k <= |entries|
    ensures forall c :: c in FilterOffered(entries, k, m) <==> c in entries[k..] && Offered(m, c)
    decreases |entries| - k
  {
    if k < |entries| {
      FilterOfferedMembers(entries, k + 1, m);
      assert entries[k..] == [entries[k]] + entries[k + 1..];
    }
  }

  lemma AvailableLight()
    ensures AvailableThemes(Light) == [Blue, Green, Purple, Orange, Red, Black]
  {
  }

  lemma AvailableDark()
    ensures AvailableThemes(Dark) == [Blue, Green, Purple, Orange, Red, White]
  {
  }

  /**
   * The available colours are the palette, in palette order, without the
   * one colour the mode drops: always six of them.
   */
  lemma AvailableThemesValue(m: Mode)
    ensures AvailableThemes(m) == [Blue, Green, Purple, Orange, Red, if m == Light then Black else White]
  {
    if m == Light {
      AvailableLight();
    } else {
      AvailableDark();
    }
  }

  /** The colours on offer in each mode, position by position. */
  lemma AvailableValues(m: Mode)
    ensures |AvailableThemes(m)| == 6
    ensures AvailableThemes(m)[0] == Blue && AvailableThemes(m)[1] == Green
    ensures AvailableThemes(m)[2] == Purple && AvailableThemes(m)[3] == Orange
    ensures AvailableThemes(m)[4] == Red
    ensures AvailableThemes(m)[5] == if m == Light then Black else White
  {
    AvailableThemesValue(m);
  }

  lemma AvailableLength(m: Mode)
    ensures |AvailableThemes(m)| == 6
  {
    AvailableThemesValue(m);
  }

  /** No colour occurs twice in `a`. */
  predicate Distinct(a: seq<ColorTheme>)
  {
    forall i, j :: 0 <= i < j < |a| ==> a[i] != a[j]
  }

  /** The position of a colour in the palette. */
  function Rank(c: ColorTheme): nat
  {
    match c
    case Blue => 0
    case Green => 1
    case Purple => 2
    case Orange => 3
    case Red => 4
    case Black => 5
    case White => 6
  }

  /**
   * A six-entry list whose first five colours are the first five of the
   * palette and whose last is black or white holds no colour twice.
   */
  lemma SixDistinct(a: seq<ColorTheme>)
    requires |a| == 6
    requires a[0] == Blue && a[1] == Green && a[2] == Purple && a[3] == Orange && a[4] == Red
    requires a[5] == Black || a[5] == White
    ensures Distinct(a)
  {
    forall k | 0 <= k < 6
      ensures Rank(a[k]) == if k < 5 then k else Rank(a[5])
    {
      if k == 0 {} else if k == 1 {} else if k == 2 {} else if k == 3 {} else if k == 4 {}
    }
    forall i, j | 0 <= i < j < 6
      ensures a[i] != a[j]
    {
      assert Rank(a[i]) < Rank(a[j]);
    }
  }

  lemma AvailableDistinct(m: Mode)
    ensures Distinct(AvailableThemes(m))
  {
    AvailableValues(m);
    SixDistinct(AvailableThemes(m));
  }

  /** Where an offered colour sits in the list as written. */
  lemma OfferedPosition(m: Mode, c: ColorTheme) returns (i: nat)
    requires Offered(m, c)
    ensures i < |AvailableThemes(m)| && AvailableThemes(m)[i] == c
  {
    AvailableValues(m);
    i := match c
      case Blue => 0
      case Green => 1
      case Purple => 2
      case Orange => 3
      case Red => 4
      case _ => 5;
  }

  /** `findIndex(t => t.value === c)`: the first position holding `c`, or -1. */
  function FindIndex(entries: seq<ColorTheme>, c: ColorTheme): (k: int)
    ensures -1 <= k < |entries|
  {
    if entries == [] then -1
    else if entries[0] == c then 0
    else
      var k := FindIndex(entries[1..], c);
      if k == -1 then -1 else k + 1
  }

  /** `findIndex` reports -1 exactly when `c` is absent, and otherwise its first position. */
  lemma {:induction false} FindIndexFirst(entries: seq<ColorTheme>, c: ColorTheme)
    ensures FindIndex(entries, c) == -1 <==> c !in entries
    ensures FindIndex(entries, c) >= 0 ==>
              entries[FindIndex(entries, c)] == c && c !in entries[..FindIndex(entries, c)]
  {
    if entries != [] && entries[0] != c {
      FindIndexFirst(entries[1..], c);
      var k := FindIndex(entries[1..], c);
      assert entries == [entries[0]] + entries[1..];
      assert k >= 0 ==> entries[..k + 1] == [entries[0]] + entries[1..][..k];
    }
  }

  /** The index the switcher's effect stores: the colour's position in `a`, or 0 when absent. */
  function IndexIn(a: seq<ColorTheme>, c: ColorTheme): (i: nat)
    requires |a| > 0
    ensures i < |a|
  {
    var k := FindIndex(a, c);
    if k >= 0 then k else 0
  }

  /** The stored index points at the colour when it is offered, and is 0 when it is not. */
  lemma IndexInFinds(a: seq<ColorTheme>, c: ColorTheme)
    requires |a| > 0
    ensures c in a ==> a[IndexIn(a, c)] == c
    ensures c !in a ==> IndexIn(a, c) == 0
  {
    FindIndexFirst(a, c);
  }

  /** With distinct colours, the stored index of an entry's colour is that entry's position. */
  lemma IndexInOfEntry(a: seq<ColorTheme>, j: nat)
    requires Distinct(a) && j < |a|
    ensures IndexIn(a, a[j]) == j
  {
    FindIndexFirst(a, a[j]);
    var k := FindIndex(a, a[j]);
    assert a[k] == a[j];
  }

  /** Every colour of `a` is found at its own position. */
  ghost predicate Positioned(a: seq<ColorTheme>)
    requires |a| > 0
  {
    forall r :: 0 <= r < |a| ==> IndexIn(a, a[r]) == r
  }

  /** In a list without repeats every colour is found at its own position. */
  lemma DistinctPositioned(a: seq<ColorTheme>)
    requires |a| > 0 && Distinct(a)
    ensures Positioned(a)
  {
    forall r | 0 <= r < |a|
      ensures IndexIn(a, a[r]) == r
    {
      IndexInOfEntry(a, r);
    }
  }

  /** `(currentIndex + 1) % availableThemes.length`. */
  function NextIndex(current: int, length: int): (i: int)
    requires length > 0
    ensures 0 <= i < length
    ensures 0 <= current < length - 1 ==> i == current + 1
    ensures current == length - 1 ==> i == 0
  {
    (current + 1) % length
  }

  /** The colour a click selects when the offered list is `a` and the colour is `c`. */
  function NextIn(a: seq<ColorTheme>, c: ColorTheme): ColorTheme
    requires |a| > 0
  {
    a[NextIndex(IndexIn(a, c), |a|)]
  }

  /** A click always selects an entry of the list. */
  lemma NextInPosition(a: seq<ColorTheme>, c: ColorTheme) returns (j: nat)
    requires |a| > 0
    ensures j < |a| && NextIn(a, c) == a[j]
  {
    j := NextIndex(IndexIn(a, c), |a|);
  }

  /** The colour after `k` clicks. */
  function ColorAfter(a: seq<ColorTheme>, c: ColorTheme, k: nat): ColorTheme
    requires |a| > 0
  {
    if k == 0 then c else NextIn(a, ColorAfter(a, c, k - 1))
  }

  /** The position reached from `i` after `k` steps of `NextIndex` round `n` places. */
  function Rotated(i: nat, k: nat, n: nat): nat
    requires i < n
  {
    if k == 0 then i else NextIndex(Rotated(i, k - 1, n), n)
  }

  /** Within one lap the rotation is plain addition, wrapped once. */
  lemma {:induction false} RotatedValue(i: nat, k: nat, n: nat)
    requires i < n && k <= n
    ensures Rotated(i, k, n) == if i + k < n then i + k else i + k - n
  {
    if k > 0 {
      RotatedValue(i, k - 1, n);
    }
  }

  /** Fewer than `bound` clicks lead from colour `c` to colour `d`. */
  ghost predicate Reaches(a: seq<ColorTheme>, c: ColorTheme, d: ColorTheme, bound: nat)
    requires |a| > 0
  {
    exists k :: 0 <= k < bound && ColorAfter(a, c, k) == d
  }

  /** A click from the colour at `r` selects the colour one place on. */
  lemma NextInOfEntry(a: seq<ColorTheme>, r: nat)
    requires r < |a| && Positioned(a)
    ensures NextIn(a, a[r]) == a[NextIndex(r, |a|)]
  {
    assert IndexIn(a, a[r]) == r;
  }

  /** After `k` clicks from the colour at `i`, the stored index has moved `k` steps round the list. */
  lemma {:induction false} ColorAfterIndex(a: seq<ColorTheme>, i: nat, k: nat)
    requires i < |a| && Positioned(a)
    ensures ColorAfter(a, a[i], k) == a[Rotated(i, k, |a|)]
  {
    if k > 0 {
      ColorAfterIndex(a, i, k - 1);
      NextInOfEntry(a, Rotated(i, k - 1, |a|));
    }
  }

  /** From the colour at `i`, the colour at `j` comes up within `|a|` clicks. */
  lemma ReachesEntry(a: seq<ColorTheme>, i: nat, j: nat)
    requires i < |a| && j < |a| && Positioned(a)
    ensures Reaches(a, a[i], a[j], |a|)
  {
    var n := |a|;
    var k: nat := if j >= i then j - i else j - i + n;
    ColorAfterIndex(a, i, k);
    RotatedValue(i, k, n);
    assert ColorAfter(a, a[i], k) == a[j];
  }

  /** `|a|` clicks from the colour at `i` come back to it. */
  lemma RotationReturns(a: seq<ColorTheme>, i: nat)
    requires i < |a| && Positioned(a)
    ensures ColorAfter(a, a[i], |a|) == a[i]
  {
    ColorAfterIndex(a, i, |a|);
    RotatedValue(i, |a|, |a|);
  }

  /**
   * Starting from the colour at `i`, `|a|` clicks visit every colour of `a`
   * and come back to the start.
   */
  lemma RotationVisitsAll(a: seq<ColorTheme>, i: nat)
    requires i < |a| && Positioned(a)
    ensures forall j :: 0 <= j < |a| ==> Reaches(a, a[i], a[j], |a|)
    ensures ColorAfter(a, a[i], |a|) == a[i]
  {
    forall j | 0 <= j < |a|
      ensures Reaches(a, a[i], a[j], |a|)
    {
      ReachesEntry(a, i, j);
    }
    RotationReturns(a, i);
  }

  /**
   * The switcher as written, clicked six times from an offered colour,
   * passes through every offered colour and comes back.
   */
  lemma AvailableRotation(m: Mode, c: ColorTheme)
    requires Offered(m, c)
    ensures forall d :: Offered(m, d) ==> Reaches(AvailableThemes(m), c, d, 6)
    ensures ColorAfter(AvailableThemes(m), c, 6) == c
  {
    AvailableValues(m);
    AvailableDistinct(m);
    var a := AvailableThemes(m);
    var i := OfferedPosition(m, c);
    DistinctPositioned(a);
    RotationVisitsAll(a, i);
    forall d | Offered(m, d)
      ensures Reaches(a, c, d, 6)
    {
      var j := OfferedPosition(m, d);
      assert Reaches(a, a[i], a[j], 6);
    }
  }

  /**
   * The filter as written offers a colour that the provider rejects: a
   * click from red selects black in light mode and white in dark mode, and
   * the apply effect replaces either by blue.
   */
  lemma SwitcherOffersRejectedColour(m: Mode)
    ensures NextIn(AvailableThemes(m), Red) == (if m == Light then Black else White)
    ensures !Compatible(m, NextIn(AvailableThemes(m), Red))
    ensures Coerced(m, NextIn(AvailableThemes(m), Red)) == Blue
  {
    AvailableValues(m);
    AvailableDistinct(m);
    var a := AvailableThemes(m);
    IndexInOfEntry(a, 4);
    assert NextIn(a, Red) == a[5];
  }

  /** The evidently intended filter: offer exactly the colours the provider accepts in the mode. */
  function FilterCompatible(entries: seq<ColorTheme>, k: nat, m: Mode): (r: seq<ColorTheme>)
    requires k <= |entries|
    ensures |r| <= |entries| - k
    decreases |entries| - k
  {
    if k == |entries| then []
    else (if Compatible(m, entries[k]) then [entries[k]] else []) + FilterCompatible(entries, k + 1, m)
  }

  function IntendedThemes(m: Mode): seq<ColorTheme>
  {
    FilterCompatible(Palette(), 0, m)
  }

  lemma IntendedLight()
    ensures IntendedThemes(Light) == [Blue, Green, Purple, Orange, Red, White]
  {
  }

  lemma IntendedDark()
    ensures IntendedThemes(Dark) == [Blue, Green, Purple, Orange, Red, Black]
  {
  }

  /** The intended list drops white in dark mode and black in light mode. */
  lemma IntendedThemesValue(m: Mode)
    ensures IntendedThemes(m) == [Blue, Green, Purple, Orange, Red, if m == Light then White else Black]
  {
    if m == Light {
      IntendedLight();
    } else {
      IntendedDark();
    }
  }

  /** The intended list, position by position. */
  lemma IntendedValues(m: Mode)
    ensures |IntendedThemes(m)| == 6
    ensures IntendedThemes(m)[0] == Blue && IntendedThemes(m)[1] == Green
    ensures IntendedThemes(m)[2] == Purple && IntendedThemes(m)[3] == Orange
    ensures IntendedThemes(m)[4] == Red
    ensures IntendedThemes(m)[5] == if m == Light then White else Black
  {
    IntendedThemesValue(m);
  }

  /** Where a colour the provider keeps sits in the intended list. */
  lemma IntendedPosition(m: Mode, c: ColorTheme) returns (i: nat)
    requires Compatible(m, c)
    ensures i < |IntendedThemes(m)| && IntendedThemes(m)[i] == c
  {
    IntendedValues(m);
    i := match c
      case Blue => 0
      case Green => 1
      case Purple => 2
      case Orange => 3
      case Red => 4
      case _ => 5;
  }

  /** The intended list offers every colour the provider keeps, only those, and each once. */
  lemma IntendedCompatibleDistinct(m: Mode)
    ensures Distinct(IntendedThemes(m))
    ensures forall c :: c in IntendedThemes(m) <==> Compatible(m, c)
  {
    IntendedValues(m);
    var a := IntendedThemes(m);
    SixDistinct(a);
    forall c
      ensures c in a <==> Compatible(m, c)
    {
      if Compatible(m, c) {
        var i := IntendedPosition(m, c);
      } else if c in a {
        var j :| 0 <= j < 6 && a[j] == c;
        if j == 0 {} else if j == 1 {} else if j == 2 {} else if j == 3 {} else if j == 4 {}
      }
    }
  }

  /**
   * With the intended filter every click, from whatever colour, selects a
   * colour the provider keeps: the apply effect leaves it alone.
   */
  lemma IntendedNextCompatible(m: Mode, c: ColorTheme)
    ensures Compatible(m, NextIn(IntendedThemes(m), c))
    ensures Coerced(m, NextIn(IntendedThemes(m), c)) == NextIn(IntendedThemes(m), c)
  {
    IntendedCompatibleDistinct(m);
    var a := IntendedThemes(m);
    var j := NextInPosition(a, c);
    assert a[j] in a;
  }

  /**
   * With the intended filter, six clicks from any colour the mode allows
   * visit every such colour and come back.
   */
  lemma IntendedRotation(m: Mode, c: ColorTheme)
    requires Compatible(m, c)
    ensures forall d :: Compatible(m, d) ==> Reaches(IntendedThemes(m), c, d, 6)
    ensures ColorAfter(IntendedThemes(m), c, 6) == c
  {
    IntendedValues(m);
    IntendedCompatibleDistinct(m);
    var a := IntendedThemes(m);
    var i := IntendedPosition(m, c);
    DistinctPositioned(a);
    RotationVisitsAll(a, i);
    forall d | Compatible(m, d)
      ensures Reaches(a, c, d, 6)
    {
      var j := IntendedPosition(m, d);
      assert Reaches(a, a[i], a[j], 6);
    }
  }

  /** The switcher's `currentIndex` state cell. */
  class Switcher {
    var currentIndex: int

    ghost predicate Valid()
      reads this
    {
      0 <= currentIndex < 6
    }

    constructor ()
      ensures Valid() && currentIndex == 0
    {
      currentIndex := 0;
    }

    /** The effect that follows the provider's mode and colour. */
    method Sync(p: Provider)
      modifies this
      ensures Valid()
      ensures currentIndex == IndexIn(AvailableThemes(p.theme), p.colorTheme)
      ensures p.colorTheme in AvailableThemes(p.theme) ==> AvailableThemes(p.theme)[currentIndex] == p.colorTheme
      ensures p.colorTheme !in AvailableThemes(p.theme) ==> currentIndex == 0
    {
      var available := AvailableThemes(p.theme);
      AvailableLength(p.theme);
      var k := FindIndex(available, p.colorTheme);
      currentIndex := if k >= 0 then k else 0;
      IndexInFinds(available, p.colorTheme);
    }

    /** `handleColorChange`: select the next offered colour. */
    method HandleColorChange(p: Provider)
      requires Valid()
      modifies p
      ensures p.colorTheme == AvailableThemes(p.theme)[NextIndex(currentIndex, 6)]
      ensures Offered(p.theme, p.colorTheme)
      ensures p.theme == old(p.theme)
      ensures p.rootClasses == old(p.rootClasses) && p.dataColorTheme == old(p.dataColorTheme)
      ensures p.savedTheme == old(p.savedTheme) && p.savedColorTheme == old(p.savedColorTheme)
    {
      AvailableLength(p.theme);
      FilterOfferedMembers(Palette(), 0, p.theme);
      assert Palette()[0..] == Palette();
      var available := AvailableThemes(p.theme);
      var next := available[NextIndex(currentIndex, |available|)];
      assert next in available;
      p.SetColorTheme(next);
    }
  }
}
