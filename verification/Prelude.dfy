/** Shared result types and facts about sequences. */
module Prelude {
  datatype Option<+T> = None | Some(value: T)

  /** The error text of the source is not modelled, only that there is an error. */
  datatype Result<+T> = Ok(value: T) | Err

  ghost predicate NoDuplicates<T>(s: seq<T>) {
    forall i, k :: 0 <= i < k < |s| ==> s[i] != s[k]
  }

  /** `r` are the elements of `s` at the increasing positions `at`. */
  ghost predicate Listed<T>(s: seq<T>, r: seq<T>, at: seq<int>) {
    && |at| == |r|
    && (forall k :: 0 <= k < |at| ==> 0 <= at[k] < |s| && r[k] == s[at[k]])
    && forall i, k :: 0 <= i < k < |at| ==> at[i] < at[k]
  }

  lemma ListedNothing<T>()
    ensures Listed<T>([], [], [])
  {
  }

  lemma ListedCons<T>(x: T, s: seq<T>, r: seq<T>, at: seq<int>, keep: bool) returns (more: seq<int>)
    requires Listed(s, r, at)
    ensures Listed([x] + s, (if keep then [x] else []) + r, more)
    ensures forall i :: i in more <==> (i == 0 && keep) || (i > 0 && i - 1 in at)
  {
    var shifted := seq(|at|, k requires 0 <= k < |at| => at[k] + 1);
    more := (if keep then [0] else []) + shifted;
    forall i ensures i in shifted <==> i > 0 && i - 1 in at {
      if i - 1 in at {
        var k :| 0 <= k < |at| && at[k] == i - 1;
        assert shifted[k] == i;
      }
    }
  }

  lemma ListedSnoc<T>(s: seq<T>, x: T, r: seq<T>, at: seq<int>, keep: bool) returns (more: seq<int>)
    requires Listed(s, r, at)
    ensures Listed(s + [x], r + (if keep then [x] else []), more)
    ensures forall i :: i in more <==> (i == |s| && keep) || i in at
  {
    more := at + (if keep then [|s|] else []);
  }
}
