/**
 * The test-mode UI wrapper of the refactored demos: what would be shown is
 * recorded in an output buffer, an error buffer and a list of column
 * layouts, and `setup_common_ui_refactored` writes its header through it.
 */
module UiBuffers {
  import opened PyText

  /** A stand-in object handed out where Streamlit would return a column. */
  datatype Placeholder = Placeholder

  /** The text `text_area` returns in test mode when no value is given. */
  const TestInput: string := "Test input"

  /** The model `setup_common_ui_refactored` selects. */
  const SelectedModel: string := "gpt-4o-mini"

  /** The label written in front of the selected model. */
  const ModelLabel: string := "選択したモデル:"

  class UIWrapper {
    /** `output_buffer`: one entry per `write`. */
    var outputBuffer: seq<string>
    /** `error_buffer`: one entry per `error`. */
    var errorBuffer: seq<string>
    /** `column_config`: the spec of each `columns` call. */
    var columnConfig: seq<seq<int>>

    /** `UIWrapper(test_mode=True)`: all three buffers empty. */
    constructor ()
      ensures outputBuffer == [] && errorBuffer == [] && columnConfig == []
    {
      outputBuffer := [];
      errorBuffer := [];
      columnConfig := [];
    }

    /**
     * `write`: records the first positional argument, or "" when there is
     * none; later arguments are not recorded. `args` holds each argument
     * already rendered by `str`.
     */
    method Write(args: seq<string>)
      modifies this
      ensures outputBuffer == old(outputBuffer) + [if args == [] then "" else args[0]]
      ensures errorBuffer == old(errorBuffer) && columnConfig == old(columnConfig)
    {
      var line := if args != [] then args[0] else "";
      outputBuffer := outputBuffer + [line];
    }

    /**
     * `write` recording every argument on one line, as the test of
     * `setup_common_ui_refactored` expects: the arguments joined by spaces.
     */
    method WriteAll(args: seq<string>)
      modifies this
      ensures outputBuffer == old(outputBuffer) + [JoinArgs(args)]
      ensures errorBuffer == old(errorBuffer) && columnConfig == old(columnConfig)
    {
      outputBuffer := outputBuffer + [JoinArgs(args)];
    }

    /** `error`: records the message after the earlier ones. */
    method Error(message: string)
      modifies this
      ensures errorBuffer == old(errorBuffer) + [message]
      ensures outputBuffer == old(outputBuffer) && columnConfig == old(columnConfig)
    {
      errorBuffer := errorBuffer + [message];
    }

    /** `columns`: records the spec and hands out one placeholder per entry. */
    method Columns(spec: seq<int>) returns (cols: seq<Placeholder>)
      modifies this
      ensures |cols| == |spec|
      ensures columnConfig == old(columnConfig) + [spec]
      ensures outputBuffer == old(outputBuffer) && errorBuffer == old(errorBuffer)
    {
      columnConfig := columnConfig + [spec];
      cols := [];
      while |cols| < |spec|
        invariant |cols| <= |spec|
      {
        cols := cols + [Placeholder];
      }
    }

    /** `button`: pressed, whatever the label. */
    method Button(caption: string, key: Option<string>) returns (pressed: bool)
      ensures pressed
    {
      pressed := true;
    }

    /** `text_area`: the given value, or "Test input" when it is empty; never empty. */
    method TextArea(caption: string, value: string, key: Option<string>) returns (text: string)
      ensures text != []
      ensures value != [] ==> text == value
      ensures value == [] ==> text == TestInput
    {
      text := if value != [] then value else TestInput;
    }

    /** `get_output`: the recorded writes, in call order. */
    method GetOutput() returns (output: seq<string>)
      ensures output == outputBuffer
    {
      output := outputBuffer;
    }

    /** `get_errors`: the recorded errors, in call order. */
    method GetErrors() returns (errors: seq<string>)
      ensures errors == errorBuffer
    {
      errors := errorBuffer;
    }

    /** `clear_buffers`: empties the output and error buffers; the column layouts stay. */
    method ClearBuffers()
      modifies this
      ensures outputBuffer == [] && errorBuffer == []
      ensures columnConfig == old(columnConfig)
    {
      outputBuffer := [];
      errorBuffer := [];
    }
  }

  /** The arguments of one `write` joined by single spaces, the way Streamlit shows them on one line. */
  function JoinArgs(args: seq<string>): string {
    if args == [] then ""
    else if |args| == 1 then args[0]
    else JoinArgs(args[..|args| - 1]) + " " + args[|args| - 1]
  }

  /** Every argument appears in the joined line; `a` is where. */
  lemma {:induction false} JoinArgsHoldsEach(args: seq<string>, i: nat) returns (a: nat)
    requires i < |args|
    ensures OccursAt(JoinArgs(args), args[i], a)
    decreases |args|
  {
    if |args| == 1 {
      a := 0;
      assert JoinArgs(args)[0..|args[0]|] == args[0];
    } else {
      var init := args[..|args| - 1];
      var front := JoinArgs(init);
      var line := JoinArgs(args);
      assert line == front + " " + args[|args| - 1];
      if i == |args| - 1 {
        a := |front| + 1;
        assert line[a..a + |args[i]|] == args[i];
      } else {
        a := JoinArgsHoldsEach(init, i);
        assert init[i] == args[i];
        assert line[a..a + |args[i]|] == front[a..a + |args[i]|];
      }
    }
  }

  /** The two lines `setup_common_ui_refactored` records: the header, then the label alone. */
  function SetupLines(demoName: string): seq<string> {
    ["# " + demoName, ModelLabel]
  }

  /**
   * `setup_common_ui_refactored` with a test-mode wrapper: writes the header
   * and the model label and returns the model.
   */
  method SetupCommonUiRefactored(demoName: string, ui: UIWrapper) returns (model: string)
    modifies ui
    ensures model == SelectedModel
    ensures ui.outputBuffer == old(ui.outputBuffer) + SetupLines(demoName)
    ensures ui.errorBuffer == old(ui.errorBuffer) && ui.columnConfig == old(ui.columnConfig)
  {
    ui.Write(["# " + demoName]);
    model := SelectedModel;
    ui.Write([ModelLabel, model]);
  }

  /**
   * The header names the demo, but neither recorded line names the model
   * unless the demo name already does: the second argument of the label's
   * `write` is dropped.
   */
  lemma SetupLinesOmitModel(demoName: string)
    requires !Contains(demoName, SelectedModel)
    ensures Contains(SetupLines(demoName)[0], demoName)
    ensures forall i :: 0 <= i < |SetupLines(demoName)| ==> !Contains(SetupLines(demoName)[i], SelectedModel)
  {
    var header := "# " + demoName;
    assert OccursAt(header, demoName, 2);
    ContainsIffOccurs(header, demoName);
    forall i ensures !OccursAt(header, SelectedModel, i) {
      if 0 <= i < 2 && i + |SelectedModel| <= |header| {
        assert header[i..i + |SelectedModel|][0] == header[i];
      } else if 2 <= i && i + |SelectedModel| <= |header| {
        ContainsIffOccurs(demoName, SelectedModel);
        assert !OccursAt(demoName, SelectedModel, i - 2);
        assert header[i..i + |SelectedModel|] == demoName[i - 2..i - 2 + |SelectedModel|];
      }
    }
    ContainsIffOccurs(header, SelectedModel);
    assert |ModelLabel| < |SelectedModel|;
    ContainsIffOccurs(ModelLabel, SelectedModel);
  }

  /** The two lines recorded when `write` keeps all its arguments: the header, then the label and the model. */
  function SetupLinesAllArgs(demoName: string): seq<string> {
    ["# " + demoName, JoinArgs([ModelLabel, SelectedModel])]
  }

  /** `setup_common_ui_refactored` over a `write` that keeps all its arguments. */
  method SetupCommonUiAllArgs(demoName: string, ui: UIWrapper) returns (model: string)
    modifies ui
    ensures model == SelectedModel
    ensures ui.outputBuffer == old(ui.outputBuffer) + SetupLinesAllArgs(demoName)
    ensures ui.errorBuffer == old(ui.errorBuffer) && ui.columnConfig == old(ui.columnConfig)
  {
    ui.WriteAll(["# " + demoName]);
    model := SelectedModel;
    ui.WriteAll([ModelLabel, model]);
  }

  /** With every argument recorded, the header names the demo and the next line names the model, as the test expects. */
  lemma SetupLinesAllArgsNameModel(demoName: string)
    ensures Contains(SetupLinesAllArgs(demoName)[0], demoName)
    ensures Contains(SetupLinesAllArgs(demoName)[1], SelectedModel)
  {
    var header := "# " + demoName;
    assert OccursAt(header, demoName, 2);
    ContainsIffOccurs(header, demoName);
    var a := JoinArgsHoldsEach([ModelLabel, SelectedModel], 1);
    ContainsIffOccurs(JoinArgs([ModelLabel, SelectedModel]), SelectedModel);
  }
}
