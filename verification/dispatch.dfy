/** validate_script_arguments and the if/elif chain of run_script. */
module Dispatch {

  import opened Outcomes

  /** The three store_true mode flags. */
  datatype Args = Args(checkSingleRegex: bool, checkDoubleRegex: bool, analyze: bool)

  /** The workflows run_script can hand over to. */
  datatype Workflow = SingleListDedup | AnalyzeTwoFiles | DoubleListDedup

  /** The two asserts: at least one of the two regex modes, and not both. */
  function Validate(args: Args): (r: Result<Args>)
    ensures r.Ok? <==> (args.checkSingleRegex != args.checkDoubleRegex)
    ensures r.Ok? ==> r.value == args
    ensures r.Err? ==> r.error == InvalidArguments
  {
    if !(args.checkSingleRegex || args.checkDoubleRegex) then Err(InvalidArguments)
    else if !(!args.checkSingleRegex || !args.checkDoubleRegex) then Err(InvalidArguments)
    else Ok(args)
  }

  /** The branch chain: single first, then analyze, then double; None when no branch fires. */
  function Select(args: Args): (w: Option<Workflow>)
    ensures w.None? <==> !args.checkSingleRegex && !args.analyze && !args.checkDoubleRegex
    ensures w == Some(SingleListDedup) <==> args.checkSingleRegex
    ensures w == Some(AnalyzeTwoFiles) <==> !args.checkSingleRegex && args.analyze
    ensures w == Some(DoubleListDedup) <==>
              !args.checkSingleRegex && !args.analyze && args.checkDoubleRegex
  {
    if args.checkSingleRegex then Some(SingleListDedup)
    else if args.analyze then Some(AnalyzeTwoFiles)
    else if args.checkDoubleRegex then Some(DoubleListDedup)
    else None
  }

  /** run_script after parsing: validate, then take the first branch that applies. */
  function RunScript(args: Args): (r: Result<Option<Workflow>>)
    ensures r.Err? <==> Validate(args).Err?
    ensures r.Ok? ==> r.value.Some?
    ensures r.Ok? ==> (r.value == Some(SingleListDedup) <==> args.checkSingleRegex)
    ensures r.Ok? ==> (r.value == Some(AnalyzeTwoFiles) <==> args.analyze && args.checkDoubleRegex)
    ensures r.Ok? ==> (r.value == Some(DoubleListDedup) <==> !args.analyze && args.checkDoubleRegex)
  {
    var valid :- Validate(args);
    Ok(Select(valid))
  }

  /** --analyze on its own is rejected before any workflow runs. */
  lemma AnalyzeAloneRejected(args: Args)
    requires args.analyze && !args.checkSingleRegex && !args.checkDoubleRegex
    ensures RunScript(args) == Err(InvalidArguments)
  {
  }

  /** --check_single_regex wins over --analyze whenever validation passes. */
  lemma SingleTakesPrecedence(args: Args)
    requires args.checkSingleRegex && !args.checkDoubleRegex
    ensures RunScript(args) == Ok(Some(SingleListDedup))
  {
  }
}
