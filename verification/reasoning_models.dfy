/**
 * How the structured-output demos decide whether a model is a reasoning
 * model (which takes no temperature), and the request parameters
 * `call_api_parse` assembles from that decision.
 */
module ReasoningModels {
  import opened PyText

  /** `models.categories.reasoning` when the configuration does not set it. */
  const FallbackReasoning: seq<string> := ["o1", "o1-mini", "o3", "o3-mini", "o4", "o4-mini"]

  /** `models.categories.frontier` when the configuration does not set it. */
  const FallbackFrontier: seq<string> := ["gpt-5", "gpt-5-mini", "gpt-5-nano"]

  /** The substrings looked for in the lower-cased model name. */
  const Indicators: seq<string> := ["o1", "o3", "o4", "gpt-5"]

  /** `any(x in s for x in needles)`. */
  function AnyContained(s: string, needles: seq<string>): (r: bool)
    ensures r <==> exists i :: 0 <= i < |needles| && Contains(s, needles[i])
  {
    if needles == [] then false
    else Contains(s, needles[0]) || AnyContained(s, needles[1..])
  }

  /**
   * `is_reasoning_model`: an indicator in the lower-cased name, or a
   * configured reasoning or frontier name in the name as given.
   */
  function IsReasoningModel(model: string, reasoning: seq<string>, frontier: seq<string>): (r: bool)
    ensures r <==>
      (exists i :: 0 <= i < |Indicators| && Contains(Lower(model), Indicators[i]))
      || (exists i :: 0 <= i < |reasoning| && Contains(model, reasoning[i]))
      || (exists i :: 0 <= i < |frontier| && Contains(model, frontier[i]))
  {
    AnyContained(Lower(model), Indicators) || AnyContained(model, reasoning) || AnyContained(model, frontier)
  }

  /** A string without upper-case ASCII letters is its own lower-case form. */
  lemma LowerOfLower(s: string)
    requires forall i :: 0 <= i < |s| ==> !('A' <= s[i] <= 'Z')
    ensures Lower(s) == s
  {
  }

  /** An occurrence survives lower-casing both texts. */
  lemma OccursLowered(s: string, t: string, i: int)
    requires OccursAt(s, t, i)
    ensures OccursAt(Lower(s), Lower(t), i)
  {
    forall k | 0 <= k < |t| ensures Lower(s)[i + k] == Lower(t)[k] {
      assert s[i + k] == t[k];
    }
    assert Lower(s)[i..i + |t|] == Lower(t);
  }

  /** Whoever contains `p + rest` contains `p`. */
  lemma ContainsPrefixOfNeedle(s: string, p: string, rest: string)
    requires Contains(s, p + rest)
    ensures Contains(s, p)
  {
    ContainsIffOccurs(s, p + rest);
    var i :| OccursAt(s, p + rest, i);
    assert s[i..i + |p|] == (p + rest)[..|p|] == p;
    assert OccursAt(s, p, i);
    ContainsIffOccurs(s, p);
  }

  /** A model containing a lower-case needle contains it after lower-casing too. */
  lemma ContainedLowered(model: string, needle: string)
    requires Contains(model, needle) && Lower(needle) == needle
    ensures Contains(Lower(model), needle)
  {
    ContainsIffOccurs(model, needle);
    var i :| OccursAt(model, needle, i);
    OccursLowered(model, needle, i);
    ContainsIffOccurs(Lower(model), needle);
  }

  /** Every fallback name starts with one of the indicators, which are lower case. */
  lemma FallbacksStartWithIndicators()
    ensures forall i :: 0 <= i < |FallbackReasoning| ==>
      exists j, rest :: 0 <= j < |Indicators| && FallbackReasoning[i] == Indicators[j] + rest
    ensures forall i :: 0 <= i < |FallbackFrontier| ==>
      exists rest :: FallbackFrontier[i] == Indicators[3] + rest
    ensures forall j :: 0 <= j < |Indicators| ==> Lower(Indicators[j]) == Indicators[j]
  {
    assert FallbackReasoning[0] == Indicators[0] + "";
    assert FallbackReasoning[1] == Indicators[0] + "-mini";
    assert FallbackReasoning[2] == Indicators[1] + "";
    assert FallbackReasoning[3] == Indicators[1] + "-mini";
    assert FallbackReasoning[4] == Indicators[2] + "";
    assert FallbackReasoning[5] == Indicators[2] + "-mini";
    assert FallbackFrontier[0] == Indicators[3] + "";
    assert FallbackFrontier[1] == Indicators[3] + "-mini";
    assert FallbackFrontier[2] == Indicators[3] + "-nano";
    forall j | 0 <= j < |Indicators| ensures Lower(Indicators[j]) == Indicators[j] {
      LowerOfLower(Indicators[j]);
    }
  }

  /**
   * With the fallback lists the name lists add nothing: a model is a
   * reasoning model exactly when its lower-cased name holds one of the four
   * indicators.
   */
  lemma FallbackListsReduceToIndicators(model: string)
    ensures IsReasoningModel(model, FallbackReasoning, FallbackFrontier) <==> AnyContained(Lower(model), Indicators)
  {
    FallbacksStartWithIndicators();
    if AnyContained(model, FallbackReasoning) {
      var i :| 0 <= i < |FallbackReasoning| && Contains(model, FallbackReasoning[i]);
      var j, rest :| 0 <= j < |Indicators| && FallbackReasoning[i] == Indicators[j] + rest;
      ContainsPrefixOfNeedle(model, Indicators[j], rest);
      ContainedLowered(model, Indicators[j]);
    }
    if AnyContained(model, FallbackFrontier) {
      var i :| 0 <= i < |FallbackFrontier| && Contains(model, FallbackFrontier[i]);
      var rest :| FallbackFrontier[i] == Indicators[3] + rest;
      ContainsPrefixOfNeedle(model, Indicators[3], rest);
      ContainedLowered(model, Indicators[3]);
    }
  }

  /** `create_temperature_control`: no temperature for a reasoning model, else the slider's value. */
  function CreateTemperatureControl(model: string, reasoning: seq<string>, frontier: seq<string>, slider: real): (t: Option<real>)
    ensures t.None? <==> IsReasoningModel(model, reasoning, frontier)
    ensures t.Some? ==> t.value == slider
  {
    if IsReasoningModel(model, reasoning, frontier) then None else Some(slider)
  }

  /** A value in the request: text, a number, or the schema class. */
  datatype ParamValue = Text(text: string) | Number(number: real) | SchemaClass(name: string)

  /**
   * `call_api_parse`'s request: input, model and schema, the temperature
   * when the model takes one and one was given, then the extra keyword
   * arguments, which win over any of these.
   */
  method CallApiParse(inputText: string, textFormat: string, temperature: Option<real>,
                      kwargs: map<string, ParamValue>, model: string,
                      reasoning: seq<string>, frontier: seq<string>)
    returns (apiParams: map<string, ParamValue>)
    ensures forall k :: k in kwargs ==> k in apiParams && apiParams[k] == kwargs[k]
    ensures "input" !in kwargs ==> "input" in apiParams && apiParams["input"] == Text(inputText)
    ensures "model" !in kwargs ==> "model" in apiParams && apiParams["model"] == Text(model)
    ensures "text_format" !in kwargs ==> "text_format" in apiParams && apiParams["text_format"] == SchemaClass(textFormat)
    ensures "temperature" !in kwargs ==>
      ("temperature" in apiParams <==> !IsReasoningModel(model, reasoning, frontier) && temperature.Some?)
    ensures "temperature" !in kwargs && "temperature" in apiParams ==> apiParams["temperature"] == Number(temperature.value)
    ensures apiParams.Keys == {"input", "model", "text_format"} + kwargs.Keys
      + (if !IsReasoningModel(model, reasoning, frontier) && temperature.Some? then {"temperature"} else {})
  {
    apiParams := map["input" := Text(inputText), "model" := Text(model), "text_format" := SchemaClass(textFormat)];
    if !IsReasoningModel(model, reasoning, frontier) && temperature.Some? {
      apiParams := apiParams["temperature" := Number(temperature.value)];
    }
    apiParams := apiParams + kwargs;
  }

  /** A text holds `t` when `t` starts it. */
  lemma ContainsAtStart(s: string, t: string)
    requires |t| <= |s| && s[..|t|] == t
    ensures Contains(s, t)
  {
    assert OccursAt(s, t, 0);
    ContainsIffOccurs(s, t);
  }

  /** A text does not hold `t` when no position matches the first two characters of `t`. */
  lemma NotContainedByFirstTwo(s: string, t: string)
    requires |t| >= 2
    requires forall i :: 0 <= i && i + 1 < |s| ==> s[i] != t[0] || s[i + 1] != t[1]
    ensures !Contains(s, t)
  {
    forall i ensures !OccursAt(s, t, i) {
      if 0 <= i && i + |t| <= |s| {
        assert s[i..i + |t|][0] == s[i] && s[i..i + |t|][1] == s[i + 1];
      }
    }
    ContainsIffOccurs(s, t);
  }

  /** A text does not hold `t` when it lacks one of the characters of `t`. */
  lemma NotContainedWithoutChar(s: string, t: string, k: int)
    requires 0 <= k < |t| && t[k] !in s
    ensures !Contains(s, t)
  {
    forall i ensures !OccursAt(s, t, i) {
      if 0 <= i && i + |t| <= |s| {
        assert s[i..i + |t|][k] == s[i + k];
      }
    }
    ContainsIffOccurs(s, t);
  }

  /** The reasoning models the unit tests name are recognised with the fallback lists. */
  lemma ReasoningModelExamples()
    ensures IsReasoningModel("o1-preview", FallbackReasoning, FallbackFrontier)
    ensures IsReasoningModel("o3-mini", FallbackReasoning, FallbackFrontier)
    ensures IsReasoningModel("gpt-5", FallbackReasoning, FallbackFrontier)
  {
    LowerOfLower("o1-preview");
    ContainsAtStart("o1-preview", Indicators[0]);
    LowerOfLower("o3-mini");
    ContainsAtStart("o3-mini", Indicators[1]);
    LowerOfLower("gpt-5");
    ContainsAtStart("gpt-5", Indicators[3]);
  }

  /**
   * A name without upper-case letters, without the digits 1, 3 and 5 and
   * without "o4" holds none of the indicators, so it is not a reasoning model
   * with the fallback lists.
   */
  lemma NoIndicatorNoReasoning(m: string)
    requires forall i :: 0 <= i < |m| ==> !('A' <= m[i] <= 'Z')
    requires '1' !in m && '3' !in m && '5' !in m
    requires forall i :: 0 <= i && i + 1 < |m| ==> m[i] != 'o' || m[i + 1] != '4'
    ensures !IsReasoningModel(m, FallbackReasoning, FallbackFrontier)
  {
    LowerOfLower(m);
    NotContainedWithoutChar(m, Indicators[0], 1);
    NotContainedWithoutChar(m, Indicators[1], 1);
    NotContainedByFirstTwo(m, Indicators[2]);
    NotContainedWithoutChar(m, Indicators[3], 4);
    FallbackListsReduceToIndicators(m);
  }

  /** `gpt-4o-mini`, named by the unit tests, is not a reasoning model with the fallback lists. */
  lemma GptFourOMiniIsNotReasoning()
    ensures !IsReasoningModel("gpt-4o-mini", FallbackReasoning, FallbackFrontier)
  {
    NoIndicatorNoReasoning("gpt-4o-mini");
  }

  /** `gpt-4-turbo`, named by the unit tests, is not a reasoning model with the fallback lists. */
  lemma GptFourTurboIsNotReasoning()
    ensures !IsReasoningModel("gpt-4-turbo", FallbackReasoning, FallbackFrontier)
  {
    NoIndicatorNoReasoning("gpt-4-turbo");
  }
}
