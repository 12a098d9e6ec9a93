/**
 * `cn`: the class-name combinator. Every argument that is a non-empty string
 * is kept, in order; undefined, null, false and the empty string are
 * dropped; the kept names are joined with single spaces.
 */
module ClassNames {
  import opened JsStrings

  /** An argument of `cn`: `string | undefined | null | false`. */
  datatype ClassValue = Str(s: string) | Undefined | Null | False

  /** `Boolean(v)`: only a non-empty string is truthy. */
  predicate Truthy(v: ClassValue)
  {
    v.Str? && v.s != ""
  }

  /** `classes.filter(Boolean)`, as the strings it keeps. */
  function Truthies(classes: seq<ClassValue>): (r: seq<string>)
    ensures |r| <= |classes|
    ensures forall k :: 0 <= k < |r| ==> r[k] != ""
  {
    if classes == [] then []
    else (if Truthy(classes[0]) then [classes[0].s] else []) + Truthies(classes[1..])
  }

  /** `cn(...classes)`. */
  function Cn(classes: seq<ClassValue>): string
  {
    Join(Truthies(classes), ' ')
  }

  /** The kept names are exactly the non-empty string arguments. */
  lemma {:induction false} TruthiesMembers(classes: seq<ClassValue>)
    ensures forall s :: s in Truthies(classes) <==> Str(s) in classes && s != ""
  {
    if classes != [] {
      TruthiesMembers(classes[1..]);
      assert classes == [classes[0]] + classes[1..];
    }
  }

  /** Filtering distributes over concatenation of the argument lists. */
  lemma {:induction false} TruthiesAppend(a: seq<ClassValue>, b: seq<ClassValue>)
    ensures Truthies(a + b) == Truthies(a) + Truthies(b)
  {
    if a != [] {
      TruthiesAppend(a[1..], b);
      assert (a + b)[1..] == a[1..] + b;
    } else {
      assert a + b == b;
    }
  }

  /** `cn` gives the empty string exactly when no argument is truthy. */
  lemma CnEmptyIff(classes: seq<ClassValue>)
    ensures Cn(classes) == "" <==> forall k :: 0 <= k < |classes| ==> !Truthy(classes[k])
  {
    JoinEmptyIff(Truthies(classes), ' ');
    TruthiesMembers(classes);
    if Truthies(classes) != [] {
      var s := Truthies(classes)[0];
      assert s in Truthies(classes);
      var k :| 0 <= k < |classes| && classes[k] == Str(s);
      assert Truthy(classes[k]);
    } else {
      forall k | 0 <= k < |classes|
        ensures !Truthy(classes[k])
      {
        assert classes[k] in classes;
      }
    }
  }

  /** One argument: a truthy name comes back unchanged, anything else gives "". */
  lemma CnSingle(v: ClassValue)
    ensures Truthy(v) ==> Cn([v]) == v.s
    ensures !Truthy(v) ==> Cn([v]) == ""
  {
    assert [v][1..] == [];
  }

  /**
   * `cn(...a, ...b)` is `cn(...a)` and `cn(...b)` joined by one space, or
   * whichever of the two is non-empty.
   */
  lemma CnAppend(a: seq<ClassValue>, b: seq<ClassValue>)
    ensures Cn(a + b) == if Cn(a) == "" then Cn(b)
                         else if Cn(b) == "" then Cn(a)
                         else Cn(a) + " " + Cn(b)
  {
    TruthiesAppend(a, b);
    JoinEmptyIff(Truthies(a), ' ');
    JoinEmptyIff(Truthies(b), ' ');
    if Truthies(a) == [] {
      assert Truthies(a + b) == Truthies(b);
    } else if Truthies(b) == [] {
      assert Truthies(a + b) == Truthies(a);
    } else {
      JoinAppend(Truthies(a), Truthies(b), ' ');
    }
  }

  /**
   * When no name contains a space and some argument is truthy, splitting
   * the result at spaces recovers the kept names.
   */
  lemma CnSplits(classes: seq<ClassValue>)
    requires forall k :: 0 <= k < |classes| && classes[k].Str? ==> ' ' !in classes[k].s
    requires exists k :: 0 <= k < |classes| && Truthy(classes[k])
    ensures Split(Cn(classes), ' ') == Truthies(classes)
  {
    var t := Truthies(classes);
    TruthiesMembers(classes);
    var k :| 0 <= k < |classes| && Truthy(classes[k]);
    assert classes[k].s in t;
    forall i | 0 <= i < |t|
      ensures ' ' !in t[i]
    {
      assert t[i] in t;
      var j :| 0 <= j < |classes| && classes[j] == Str(t[i]);
    }
    SplitJoin(t, ' ');
  }
}
