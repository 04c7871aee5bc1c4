/**
 * The positional `optionsArray` handed to a chat-input callback: the interaction's option
 * values in order, with a chosen subcommand contributing its name and its own options'
 * values, and every falsy value dropped.
 */
module Options {
  import opened Js

  /** The option types the flattening distinguishes; every other type is `Scalar`. */
  datatype OptionType = SubCommand | SubCommandGroup | Scalar

  /**
   * An option nested one level down, such as an argument of a chosen subcommand. The
   * flattening reads only its value, so its own nested options are not represented.
   */
  datatype NestedOption = NestedOption(optType: OptionType, name: string, value: Value)

  /**
   * One entry of `interaction.options.data`. `options` lists the nested options
   * (an absent list is empty).
   */
  datatype InteractionOption = InteractionOption(
    optType: OptionType, name: string, value: Value, options: seq<NestedOption>)

  /** What the nested `forEach` pushes for one nested option: its value, when truthy. */
  function NestedEmitted(x: NestedOption): seq<Value> {
    if Truthy(x.value) then [x.value] else []
  }

  /** What the nested `forEach` pushes for the whole list. */
  function NestedValues(xs: seq<NestedOption>): seq<Value> {
    FlatMap(NestedEmitted, xs)
  }

  /** What one iteration of the outer loop pushes for `option`. */
  function Emitted(option: InteractionOption): seq<Value> {
    if option.optType == SubCommand then
      (if option.name != "" then [Str(option.name)] else []) + NestedValues(option.options)
    else if Truthy(option.value) then [option.value]
    else []
  }

  /** The flattened positional values of `data`. */
  function Flatten(data: seq<InteractionOption>): seq<Value> {
    FlatMap(Emitted, data)
  }

  /** The same walk with nothing dropped: the reference the flattening filters. */
  function RawNestedEmitted(x: NestedOption): seq<Value> {
    [x.value]
  }

  function RawEmitted(option: InteractionOption): seq<Value> {
    if option.optType == SubCommand then [Str(option.name)] + FlatMap(RawNestedEmitted, option.options)
    else [option.value]
  }

  function Raw(data: seq<InteractionOption>): seq<Value> {
    FlatMap(RawEmitted, data)
  }

  /** The nested values are the nested option values with the falsy ones removed. */
  lemma NestedValuesIsFilter(xs: seq<NestedOption>)
    ensures NestedValues(xs) == Filter(Truthy, FlatMap(RawNestedEmitted, xs))
  {
    forall i | 0 <= i < |xs|
      ensures NestedEmitted(xs[i]) == Filter(Truthy, RawNestedEmitted(xs[i]))
    {
      assert [xs[i].value][1..] == [];
    }
    FlatMapFilter(NestedEmitted, RawNestedEmitted, Truthy, xs);
  }

  lemma EmittedIsFilter(option: InteractionOption)
    ensures Emitted(option) == Filter(Truthy, RawEmitted(option))
  {
    if option.optType == SubCommand {
      NestedValuesIsFilter(option.options);
      FilterAppend(Truthy, [Str(option.name)], FlatMap(RawNestedEmitted, option.options));
    }
  }

  /**
   * The flattening is exactly the unfiltered walk with its falsy values removed: values
   * keep their order, and `0`, `false`, `''` and undefined never appear.
   */
  lemma FlattenIsFilter(data: seq<InteractionOption>)
    ensures Flatten(data) == Filter(Truthy, Raw(data))
  {
    forall i | 0 <= i < |data|
      ensures Emitted(data[i]) == Filter(Truthy, RawEmitted(data[i]))
    {
      EmittedIsFilter(data[i]);
    }
    FlatMapFilter(Emitted, RawEmitted, Truthy, data);
  }

  /** `0`, `false`, `''` and undefined never reach `optionsArray`. */
  lemma FlattenAllTruthy(data: seq<InteractionOption>)
    ensures forall i :: 0 <= i < |Flatten(data)| ==> Truthy(Flatten(data)[i])
  {
    FlattenIsFilter(data);
  }

  /** Flattening one more option appends what that option emits. */
  lemma FlattenSnoc(data: seq<InteractionOption>, option: InteractionOption)
    ensures Flatten(data + [option]) == Flatten(data) + Emitted(option)
  {
    FlatMapSnoc(Emitted, data, option);
  }

  /** Flattening processes the options one after another, in order. */
  lemma FlattenAppend(a: seq<InteractionOption>, b: seq<InteractionOption>)
    ensures Flatten(a + b) == Flatten(a) + Flatten(b)
  {
    FlatMapAppend(Emitted, a, b);
  }

  /** The nested `option.options?.forEach(...)`: appends each truthy nested value. */
  method PushNestedValues(optionsArray: seq<Value>, xs: seq<NestedOption>) returns (r: seq<Value>)
    ensures r == optionsArray + NestedValues(xs)
  {
    r := optionsArray;
    for j := 0 to |xs|
      invariant r == optionsArray + NestedValues(xs[..j])
    {
      var x := xs[j];
      if Truthy(x.value) {
        r := r + [x.value];
      }
      assert xs[..j + 1] == xs[..j] + [x];
      FlatMapSnoc(NestedEmitted, xs[..j], x);
    }
    assert xs[..|xs|] == xs;
  }

  /** The `for` loop over `interaction.options.data` that builds `optionsArray`. */
  method OptionsArray(data: seq<InteractionOption>) returns (optionsArray: seq<Value>)
    ensures optionsArray == Flatten(data)
  {
    optionsArray := [];
    for i := 0 to |data|
      invariant optionsArray == Flatten(data[..i])
    {
      var option := data[i];
      ghost var before := optionsArray;
      if option.optType == SubCommand {
        if option.name != "" {
          optionsArray := optionsArray + [Str(option.name)];
        }
        optionsArray := PushNestedValues(optionsArray, option.options);
      } else if Truthy(option.value) {
        optionsArray := optionsArray + [option.value];
      }
      assert optionsArray == before + Emitted(option);
      assert data[..i + 1] == data[..i] + [option];
      FlattenSnoc(data[..i], option);
    }
    assert data[..|data|] == data;
  }
}
