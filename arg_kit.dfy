/** `ArgFormatter._format_action_invocation` of arg_kit.py: how an argparse
    option is shown in the help listing. argparse's own `_metavar_formatter`
    and `_format_args` are given as functions: the first yields the tuple of
    metavars it formats for one argument, the second the argument text built
    from the default metavar. */
module ArgKit {
  import opened Wrappers
  import Strings

  /** `Action.nargs`: not given, an integer count, or a pattern such as '?' or '+'. */
  datatype NArgs = Unspecified | Count(n: int) | Pattern(p: string)

  /** The fields of an argparse `Action` the formatter reads. */
  datatype Action = Action(optionStrings: seq<string>, dest: string, nargs: NArgs)

  const Separator: string := ", "

  /** The ValueError of unpacking a metavar tuple that does not hold exactly
      one element into `(metavar,)`. */
  datatype FormatError = UnpackError(count: nat)

  /** The option strings with `suffix` appended to the last one only. */
  function WithArgs(options: seq<string>, suffix: string): (r: seq<string>)
    requires |options| >= 1
    ensures |r| == |options|
    ensures r[..|r| - 1] == options[..|options| - 1]
    ensures r[|r| - 1] == options[|options| - 1] + suffix
  {
    options[..|options| - 1] + [options[|options| - 1] + suffix]
  }

  /** Formats an action: a positional argument shows its metavar alone, and
      fails when the formatter gives it other than exactly one metavar; a flag
      that takes no value lists its option strings joined by ", "; any other
      option lists its option strings in order, with the argument text built
      from the upper-cased `dest` after the last one only. */
  method FormatActionInvocation(action: Action, metavarFor: string -> seq<string>, formatArgs: string -> string)
    returns (r: Result<string, FormatError>)
    ensures action.optionStrings == [] && |metavarFor(action.dest)| == 1 ==>
      r == Success(metavarFor(action.dest)[0])
    ensures action.optionStrings == [] && |metavarFor(action.dest)| != 1 ==>
      r == Failure(UnpackError(|metavarFor(action.dest)|))
    ensures action.optionStrings != [] && action.nargs == Count(0) ==>
      r == Success(Strings.Join(action.optionStrings, Separator))
    ensures action.optionStrings != [] && action.nargs != Count(0) ==>
      r == Success(Strings.Join(WithArgs(action.optionStrings, " " + formatArgs(Strings.Upper(action.dest))), Separator))
  {
    if action.optionStrings == [] {
      var metavars := metavarFor(action.dest);
      if |metavars| != 1 {
        return Failure(UnpackError(|metavars|));
      }
      return Success(metavars[0]);
    }
    var parts: seq<string> := [];
    if action.nargs == Count(0) {
      parts := parts + action.optionStrings;
      assert parts == action.optionStrings;
    } else {
      var defaultMetavar := Strings.Upper(action.dest);
      var argsString := formatArgs(defaultMetavar);
      var i := 0;
      while i < |action.optionStrings|
        invariant 0 <= i <= |action.optionStrings|
        invariant parts == action.optionStrings[..i]
      {
        parts := parts + [action.optionStrings[i]];
        i := i + 1;
      }
      assert parts == action.optionStrings;
      parts := parts[|parts| - 1 := parts[|parts| - 1] + (" " + argsString)];
      assert parts == WithArgs(action.optionStrings, " " + argsString);
    }
    r := Success(Strings.Join(parts, Separator));
  }

  /** When neither the option strings nor the argument text contain a comma,
      the output holds exactly one comma per separator: one fewer than there
      are option strings. */
  lemma {:induction false} SeparatorCount(options: seq<string>, argsText: string)
    requires |options| >= 1
    requires forall i :: 0 <= i < |options| ==> Strings.CountChar(options[i], ',') == 0
    requires Strings.CountChar(argsText, ',') == 0
    ensures Strings.CountChar(Strings.Join(options, Separator), ',') == |options| - 1
    ensures Strings.CountChar(Strings.Join(WithArgs(options, " " + argsText), Separator), ',') == |options| - 1
  {
    assert Strings.CountChar(Separator, ',') == 1 by {
      assert Separator[..1] == ",";
      assert ","[..0] == "";
    }
    Strings.JoinCountsSeparators(options, Separator, ',');
    var w := WithArgs(options, " " + argsText);
    var last := options[|options| - 1];
    Strings.CountCharAppend(last, " " + argsText, ',');
    Strings.CountCharAppend(" ", argsText, ',');
    assert Strings.CountChar(" ", ',') == 0 by {
      assert " "[..0] == "";
    }
    forall i | 0 <= i < |w|
      ensures Strings.CountChar(w[i], ',') == 0
    {
      if i < |w| - 1 {
        assert w[i] == w[..|w| - 1][i];
      }
    }
    Strings.JoinCountsSeparators(w, Separator, ',');
  }

  /** The help line of the class documentation: `-o/--option` with dest
      'option' shows as `-o, --option OPTION` when `_format_args` returns the
      default metavar unchanged. */
  method DocumentedOption() returns (r: Result<string, FormatError>)
    ensures r == Success("-o, --option OPTION")
  {
    var action := Action(["-o", "--option"], "option", Unspecified);
    var formatArgs: string -> string := s => s;
    r := FormatActionInvocation(action, s => [s], formatArgs);
    assert Strings.Upper("option") == "OPTION";
    assert " " + formatArgs(Strings.Upper(action.dest)) == " OPTION";
    assert "--option" + " OPTION" == "--option OPTION";
    assert ["-o", "--option"][..1] == ["-o"];
    assert WithArgs(["-o", "--option"], " OPTION") == ["-o", "--option OPTION"];
    assert Strings.Join(["-o", "--option OPTION"], Separator) == Strings.Join(["-o"], Separator) + Separator + "--option OPTION";
    assert Strings.Join(["-o", "--option OPTION"], Separator) == "-o, --option OPTION";
  }
}
