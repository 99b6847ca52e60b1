/** What both hubs broadcast in the course of a run. */
module Broadcasts {
  import opened Common

  /** The messages that the steps broadcast, in order. */
  function Messages<S>(steps: seq<S>, message: S -> Option<string>): seq<string> {
    if steps == [] then []
    else
      var before := Messages(steps[..|steps| - 1], message);
      if message(Last(steps)).Some? then before + [message(Last(steps)).value] else before
  }

  /** A last step adds its message to those since step r. */
  lemma {:induction false} LaterMessages<S>(steps: seq<S>, message: S -> Option<string>, r: nat)
    requires r < |steps|
    ensures var before := Messages(steps[..|steps| - 1][r..], message);
      Messages(steps[r..], message) ==
        if message(Last(steps)).Some? then before + [message(Last(steps)).value] else before
  {
    var n := |steps| - 1;
    assert steps[r..][..n - r] == steps[..n][r..] && Last(steps[r..]) == steps[n];
  }
}
