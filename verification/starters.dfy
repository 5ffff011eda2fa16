/**
 * The list of chosen starters and the checkbox toggle that maintains it:
 * checking a starter `push`es its value, unchecking `splice`s out the element
 * at `indexOf(value)`. The two JavaScript array built-ins are modelled with
 * their standard semantics, including `splice` of a negative start.
 */
module Starters {

  /** `Array.prototype.indexOf`: the first index holding `v`, or -1. */
  function IndexOf(s: seq<string>, v: string): (i: int)
    ensures -1 <= i < |s|
    ensures i == -1 <==> v !in s
    ensures 0 <= i ==> s[i] == v && v !in s[..i]
    decreases |s|
  {
    if s == [] then -1
    else if s[0] == v then 0
    else
      var j := IndexOf(s[1..], v);
      if j < 0 then -1 else j + 1
  }

  /**
   * `Array.prototype.splice(start, 1)`: a negative start counts from the end
   * (clamped at 0), a start past the end removes nothing.
   */
  function SpliceOne(s: seq<string>, start: int): (r: seq<string>)
    ensures 0 <= start < |s| ==> r == s[..start] + s[start + 1..]
    ensures -|s| <= start < 0 ==> r == s[..|s| + start] + s[|s| + start + 1..]
    ensures start < -|s| ==> r == if s == [] then [] else s[1..]
    ensures |s| <= start ==> r == s
  {
    var k := if start < 0 then (if |s| + start < 0 then 0 else |s| + start)
             else (if start < |s| then start else |s|);
    if k < |s| then s[..k] + s[k + 1..] else s
  }

  /** The starters list after a click on the checkbox of `value`. */
  function Toggle(starters: seq<string>, value: string, checked: bool): (r: seq<string>)
    ensures checked ==> r == starters + [value]
    ensures !checked && value in starters ==>
              exists i :: 0 <= i < |starters| && starters[i] == value && value !in starters[..i] &&
                          r == starters[..i] + starters[i + 1..]
    ensures !checked && value !in starters ==> r == if starters == [] then [] else starters[..|starters| - 1]
  {
    if checked then starters + [value]
    else SpliceOne(starters, IndexOf(starters, value))
  }

  /** Unchecking a chosen starter removes exactly one occurrence of it and nothing else. */
  lemma UncheckRemovesOne(starters: seq<string>, value: string)
    requires value in starters
    ensures multiset(Toggle(starters, value, false)) == multiset(starters) - multiset{value}
    ensures |Toggle(starters, value, false)| == |starters| - 1
  {
    var i := IndexOf(starters, value);
    assert starters == starters[..i] + [starters[i]] + starters[i + 1..];
  }

  /** Checking a starter that was not chosen and unchecking it again restores the list. */
  lemma CheckThenUncheck(starters: seq<string>, value: string)
    requires value !in starters
    ensures Toggle(Toggle(starters, value, true), value, false) == starters
  {
  }

  /**
   * The quirk of unchecking a value that is not in the list: `indexOf`
   * gives -1 and `splice(-1, 1)` drops the last chosen starter, which is a
   * different value.
   */
  lemma UncheckAbsentDropsLast(starters: seq<string>, value: string)
    requires value !in starters && starters != []
    ensures Toggle(starters, value, false) == starters[..|starters| - 1]
    ensures starters[|starters| - 1] != value
    ensures multiset(Toggle(starters, value, false)) == multiset(starters) - multiset{starters[|starters| - 1]}
  {
    assert starters == starters[..|starters| - 1] + [starters[|starters| - 1]];
  }
}
