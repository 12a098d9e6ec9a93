/**
 * The new-poll editor: a list of option texts that starts with two empty
 * entries and is edited through the Add, Remove and per-option inputs, and a
 * `saving` latch on the Create button. The question input is uncontrolled and
 * the Create button calls no service; neither has state to model.
 */
module NewPollPage {
  import opened PollTypes

  /** `(o) => [...o, ""]`. */
  function Appended(options: seq<string>): (r: seq<string>)
    ensures |r| == |options| + 1 && r[..|options|] == options && r[|options|] == ""
  {
    options + [""]
  }

  /** `prev.map((p, i) => (i === idx ? v : p))`. */
  function Replaced(options: seq<string>, idx: int, v: string): (r: seq<string>)
    ensures |r| == |options|
    ensures forall i :: 0 <= i < |r| ==> r[i] == if i == idx then v else options[i]
  {
    seq(|options|, i requires 0 <= i < |options| => if i == idx then v else options[i])
  }

  /** `prev.filter((_, i) => i !== idx)`, counting positions from `from`. */
  function WithoutIndexFrom(options: seq<string>, idx: int, from: int): seq<string>
  {
    if options == [] then []
    else (if from == idx then [] else [options[0]]) + WithoutIndexFrom(options[1..], idx, from + 1)
  }

  function Removed(options: seq<string>, idx: int): seq<string>
  {
    WithoutIndexFrom(options, idx, 0)
  }

  lemma {:induction false} WithoutIndexFromSplices(options: seq<string>, idx: int, from: int)
    ensures from <= idx < from + |options|
            ==> WithoutIndexFrom(options, idx, from) == options[..idx - from] + options[idx - from + 1..]
    ensures !(from <= idx < from + |options|) ==> WithoutIndexFrom(options, idx, from) == options
  {
    if options != [] {
      WithoutIndexFromSplices(options[1..], idx, from + 1);
      if from == idx {
        assert options[idx - from + 1..] == options[1..];
      } else if from < idx < from + |options| {
        assert options[..idx - from] == [options[0]] + options[1..][..idx - from - 1];
        assert options[idx - from + 1..] == options[1..][idx - from - 1 + 1..];
      } else {
        assert options == [options[0]] + options[1..];
      }
    }
  }

  /**
   * Remove takes out exactly the entry at `idx` and keeps the others in
   * order; an index outside the list removes nothing.
   */
  lemma RemovedSplices(options: seq<string>, idx: int)
    ensures 0 <= idx < |options| ==> Removed(options, idx) == options[..idx] + options[idx + 1..]
    ensures 0 <= idx < |options| ==> |Removed(options, idx)| == |options| - 1
    ensures !(0 <= idx < |options|) ==> Removed(options, idx) == options
  {
    WithoutIndexFromSplices(options, idx, 0);
  }

  /** Add is enabled unless `options.length >= 10`. */
  predicate CanAdd(options: seq<string>)
  {
    !(|options| >= MaxOptions)
  }

  /** Remove is enabled unless `options.length <= 2`. */
  predicate CanRemove(options: seq<string>)
  {
    !(|options| <= MinOptions)
  }

  /** No enabled operation takes the length out of [2, 10]. */
  lemma GuardsKeepBounds(options: seq<string>, idx: int, v: string)
    requires MinOptions <= |options| <= MaxOptions
    ensures CanAdd(options) ==> MinOptions <= |Appended(options)| <= MaxOptions
    ensures CanRemove(options) && 0 <= idx < |options| ==> MinOptions <= |Removed(options, idx)| <= MaxOptions
    ensures |Replaced(options, idx, v)| == |options|
  {
    RemovedSplices(options, idx);
  }

  /** The editor's state cells `options` and `saving`. */
  class Editor {
    var options: seq<string>
    var saving: bool

    ghost predicate Valid()
      reads this
    {
      MinOptions <= |options| <= MaxOptions
    }

    /** The form opens with two empty options and not saving. */
    constructor ()
      ensures Valid() && options == ["", ""] && !saving
    {
      options := ["", ""];
      saving := false;
    }

    /** The Add option button; a disabled button does nothing. */
    method AddOption() returns (added: bool)
      requires Valid()
      modifies this
      ensures Valid()
      ensures added == CanAdd(old(options))
      ensures options == if added then Appended(old(options)) else old(options)
      ensures saving == old(saving)
    {
      added := CanAdd(options);
      if added {
        options := Appended(options);
      }
    }

    /** Typing `v` into the input of option `idx`. */
    method EditOption(idx: nat, v: string)
      requires Valid() && idx < |options|
      modifies this
      ensures Valid()
      ensures options == Replaced(old(options), idx, v) && options == old(options)[idx := v]
      ensures saving == old(saving)
    {
      options := Replaced(options, idx, v);
    }

    /** The Remove button of option `idx`; a disabled button does nothing. */
    method RemoveOption(idx: nat) returns (removed: bool)
      requires Valid() && idx < |options|
      modifies this
      ensures Valid()
      ensures removed == CanRemove(old(options))
      ensures removed ==> options == old(options)[..idx] + old(options)[idx + 1..]
      ensures !removed ==> options == old(options)
      ensures saving == old(saving)
    {
      removed := CanRemove(options);
      if removed {
        RemovedSplices(options, idx);
        options := Removed(options, idx);
      }
    }

    /** The Create poll button: disabled while saving, otherwise it sets the latch. */
    method ClickCreate() returns (clicked: bool)
      requires Valid()
      modifies this
      ensures Valid()
      ensures clicked == !old(saving)
      ensures saving && options == old(options)
    {
      clicked := !saving;
      if clicked {
        saving := true;
      }
    }
  }
}
