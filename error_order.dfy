/**
 * How `useDerivedSwapInfo` settles on one error message. Its checks run in a
 * fixed order, and each one either keeps an earlier message
 * (`inputError = inputError ?? msg`) or replaces it (`inputError = msg`).
 */
module ErrorOrder {
  import opened Wrappers

  datatype Check =
    | Keep(fires: bool, msg: string)      // inputError = inputError ?? msg
    | Override(fires: bool, msg: string)  // inputError = msg

  /** The effect of one check on the error so far. */
  function Apply(err: Option<string>, c: Check): Option<string>
  {
    if !c.fires then err
    else if c.Override? then Some(c.msg)
    else Some(err.OrElse(c.msg))
  }

  /** The checks run one after another, starting with no error. */
  function Run(cs: seq<Check>): Option<string>
  {
    if cs == [] then None else Apply(Run(cs[..|cs| - 1]), cs[|cs| - 1])
  }

  /** The checks run one after another, starting from the error `err`. */
  function RunFrom(err: Option<string>, cs: seq<Check>): Option<string>
  {
    if cs == [] then err else Apply(RunFrom(err, cs[..|cs| - 1]), cs[|cs| - 1])
  }

  /** Running two blocks of checks is running the second from where the first left off. */
  lemma {:induction false} RunAppend(cs: seq<Check>, ds: seq<Check>)
    ensures Run(cs + ds) == RunFrom(Run(cs), ds)
  {
    if ds == [] {
      assert cs + ds == cs;
    } else {
      var init := ds[..|ds| - 1];
      assert (cs + ds)[..|cs + ds| - 1] == cs + init;
      RunAppend(cs, init);
    }
  }

  /** Running two blocks from an error is running the second from where the first left off. */
  lemma {:induction false} RunFromAppend(err: Option<string>, cs: seq<Check>, ds: seq<Check>)
    ensures RunFrom(err, cs + ds) == RunFrom(RunFrom(err, cs), ds)
  {
    if ds == [] {
      assert cs + ds == cs;
    } else {
      var init := ds[..|ds| - 1];
      assert (cs + ds)[..|cs + ds| - 1] == cs + init;
      RunFromAppend(err, cs, init);
    }
  }

  lemma RunFromTwo(err: Option<string>, cs: seq<Check>)
    requires |cs| == 2
    ensures RunFrom(err, cs) == Apply(Apply(err, cs[0]), cs[1])
  {
    assert cs[..1][..0] == [];
    assert RunFrom(err, cs[..1]) == Apply(err, cs[0]);
    assert cs[..|cs| - 1] == cs[..1];
  }

  /** No check of the block fires. */
  predicate Quiet(cs: seq<Check>) { forall i :: 0 <= i < |cs| ==> !cs[i].fires }

  /** A block in which nothing fires leaves the error as it was. */
  lemma {:induction false} RunFromQuiet(err: Option<string>, cs: seq<Check>)
    requires Quiet(cs)
    ensures RunFrom(err, cs) == err
  {
    if cs != [] {
      RunFromQuiet(err, cs[..|cs| - 1]);
    }
  }

  /** From no error, a block in which nothing fires leaves no error. */
  lemma {:induction false} RunQuiet(cs: seq<Check>)
    requires Quiet(cs)
    ensures Run(cs) == None
  {
    if cs != [] {
      RunQuiet(cs[..|cs| - 1]);
    }
  }

  /** Keeping checks never replace an error that is already set. */
  lemma {:induction false} RunFromKeeps(err: Option<string>, cs: seq<Check>)
    requires err.Some? && forall i :: 0 <= i < |cs| ==> cs[i].Keep?
    ensures RunFrom(err, cs) == err
  {
    if cs != [] {
      RunFromKeeps(err, cs[..|cs| - 1]);
    }
  }

  /** Once an error is set, no later check clears it. */
  lemma {:induction false} RunFromStaysSet(err: Option<string>, cs: seq<Check>)
    requires err.Some?
    ensures RunFrom(err, cs).Some?
  {
    if cs != [] {
      RunFromStaysSet(err, cs[..|cs| - 1]);
    }
  }

  /** The message of the last overriding check that fires. */
  function LastOverride(cs: seq<Check>): Option<string>
  {
    if cs == [] then None
    else
      var c := cs[|cs| - 1];
      if c.Override? && c.fires then Some(c.msg) else LastOverride(cs[..|cs| - 1])
  }

  /** The message of the first keeping check that fires. */
  function FirstKeep(cs: seq<Check>): Option<string>
  {
    if cs == [] then None
    else if cs[0].Keep? && cs[0].fires then Some(cs[0].msg)
    else FirstKeep(cs[1..])
  }

  /** The message that wins: the last override that fires, else the first keep that fires. */
  function Winner(cs: seq<Check>): Option<string>
  {
    if LastOverride(cs).Some? then LastOverride(cs) else FirstKeep(cs)
  }

  lemma {:induction false} FirstKeepSnoc(cs: seq<Check>, c: Check)
    ensures FirstKeep(cs + [c]) ==
            if FirstKeep(cs).None? && c.Keep? && c.fires then Some(c.msg) else FirstKeep(cs)
  {
    if cs == [] {
      assert [] + [c] == [c];
    } else {
      assert (cs + [c])[0] == cs[0];
      assert (cs + [c])[1..] == cs[1..] + [c];
      FirstKeepSnoc(cs[1..], c);
    }
  }

  /** Running the checks in order yields exactly the winning message. */
  lemma {:induction false} RunIsWinner(cs: seq<Check>)
    ensures Run(cs) == Winner(cs)
  {
    if cs != [] {
      var init, c := cs[..|cs| - 1], cs[|cs| - 1];
      assert cs == init + [c];
      RunIsWinner(init);
      FirstKeepSnoc(init, c);
    }
  }

  /** The message is one of the checks' messages, and only a firing check contributes it. */
  lemma {:induction false} WinnerFromFiringCheck(cs: seq<Check>)
    ensures Winner(cs).Some? <==> exists i :: 0 <= i < |cs| && cs[i].fires
    ensures Winner(cs).Some? ==> exists i :: 0 <= i < |cs| && cs[i].fires && cs[i].msg == Winner(cs).value
  {
    if cs != [] {
      var init, c := cs[..|cs| - 1], cs[|cs| - 1];
      assert cs == init + [c];
      WinnerFromFiringCheck(init);
      FirstKeepSnoc(init, c);
      if c.fires {
        assert cs[|cs| - 1].fires;
      }
      if Winner(init).Some? {
        var i :| 0 <= i < |init| && init[i].fires && init[i].msg == Winner(init).value;
        assert cs[i] == init[i];
      }
      forall i | 0 <= i < |init| && init[i].fires ensures cs[i].fires { assert cs[i] == init[i]; }
      forall i | 0 <= i < |cs| && cs[i].fires ensures i == |cs| - 1 || init[i].fires { if i < |init| { assert cs[i] == init[i]; } }
    }
  }
}
