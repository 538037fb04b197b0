/** The remaining number of results a caller still wants. */
module LimitTrackers {
  import opened Common

  /** The contents of a tracker. */
  datatype Limits = Limits(hasLimit: bool, currentLimit: nat)
  {
    predicate Exhausted() {
      hasLimit && currentLimit == 0
    }

    /** At least `n` more results may be published. */
    predicate Allows(n: nat) {
      hasLimit ==> n <= currentLimit
    }

    /** After `n` results have been published. */
    function Less(n: nat): Limits
      requires Allows(n)
    {
      if hasLimit then Limits(hasLimit, currentLimit - n) else this
    }

    /** The longest prefix that may be published. */
    function Cut<T>(items: seq<T>): (r: seq<T>)
      ensures Allows(|r|) && r <= items
      ensures |r| == |items| || Less(|r|).Exhausted()
    {
      if hasLimit && currentLimit < |items| then items[..currentLimit] else items
    }
  }

  function NewLimits(optionalLimit: nat): Limits {
    Limits(optionalLimit > 0, optionalLimit)
  }

  class LimitTracker {
    var hasLimit: bool
    var currentLimit: nat

    function View(): Limits
      reads this
    {
      Limits(hasLimit, currentLimit)
    }

    /** Zero means that there is no limit. */
    constructor (optionalLimit: nat)
      ensures View() == NewLimits(optionalLimit)
      ensures forall n: nat :: View().Allows(n) <==> optionalLimit == 0 || n <= optionalLimit
    {
      currentLimit := optionalLimit;
      hasLimit := optionalLimit > 0;
    }

    /** Takes one result out of the limit, if one is left. */
    method PrepareForPublishing() returns (okay: bool)
      modifies this
      ensures okay <==> old(View()).Allows(1)
      ensures View() == if okay then old(View()).Less(1) else old(View())
    {
      if !hasLimit {
        return true;
      }
      if currentLimit == 0 {
        return false;
      }
      currentLimit := currentLimit - 1;
      return true;
    }

    /** Takes out results that were published elsewhere; an error when they exceed the limit. */
    method MarkAlreadyPublished(count: nat) returns (r: Result<()>)
      modifies this
      ensures r.Ok? <==> old(View()).Allows(count)
      ensures View() == if r.Ok? then old(View()).Less(count) else old(View())
    {
      if !hasLimit {
        return Ok(());
      }
      if count > currentLimit {
        return Err;
      }
      currentLimit := currentLimit - count;
      return Ok(());
    }

    method HasExhaustedLimit() returns (exhausted: bool)
      ensures exhausted <==> View().Exhausted()
    {
      exhausted := hasLimit && currentLimit == 0;
    }
  }
}
