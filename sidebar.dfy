/**
 * The sidebar's data-selection state and the helpers that turn catalog rows
 * and the variables metadata file into the options the sidebar offers: which
 * variables, models and experiments can be picked, which files a selection
 * matches, how the NaN-marker text and the time-step mode are read, and how
 * options are labelled with their descriptions.
 */
module Sidebar {
  import opened Wrappers
  import opened Text
  import opened Ordering
  import opened Collections
  import opened Ismip6Index

  /** A YAML mapping of string attributes, in file order. */
  type Attributes = Dict<string, string>

  /**
   * The `variables` mapping of the variables metadata file (variable name to
   * its attributes), or `None` when the file has no `variables` key.
   */
  type VariableMetadata = Option<Dict<string, Attributes>>

  /** `info.get(key, default)`. */
  function Attr(info: Attributes, key: string, default: string): string {
    Get(info, key).GetOr(default)
  }

  /** The `model` column the app adds to the catalog: `institution/model_name`. */
  function ModelOf(row: CatalogRecord): string {
    row.institution + "/" + row.modelName
  }

  // ---------------------------------------------------------------------
  // Columns of the catalog
  // ---------------------------------------------------------------------

  /** `file_index['variable']`, in row order. */
  function VariableColumn(rows: seq<CatalogRecord>): (vs: seq<string>)
    ensures |vs| == |rows|
    ensures forall i :: 0 <= i < |rows| ==> vs[i] == rows[i].variable
  {
    seq(|rows|, i requires 0 <= i < |rows| => rows[i].variable)
  }

  /** The `field` values of the rows that `keep` selects, in row order. */
  function Column(rows: seq<CatalogRecord>, keep: CatalogRecord -> bool, field: CatalogRecord -> string): (c: seq<string>)
    ensures forall x :: x in c <==> exists i :: 0 <= i < |rows| && keep(rows[i]) && field(rows[i]) == x
  {
    if |rows| == 0 then []
    else
      var init := rows[..|rows| - 1];
      var last := rows[|rows| - 1];
      var c := Column(init, keep, field) + (if keep(last) then [field(last)] else []);
      assert forall i :: 0 <= i < |init| ==> init[i] == rows[i];
      c
  }

  // ---------------------------------------------------------------------
  // Variables on offer
  // ---------------------------------------------------------------------

  /**
   * Whether the metadata lets `v` be plotted: its `variable_type` (`'2D'`
   * when absent, as is a variable missing from the metadata) is not
   * `'scalar'`.
   */
  predicate IsSpatial(variables: Dict<string, Attributes>, v: string) {
    Attr(Get(variables, v).GetOr([]), "variable_type", "2D") != "scalar"
  }

  /** The loop that keeps the spatial variables of `vs`, in order. */
  function SpatialOnly(vs: seq<string>, variables: Dict<string, Attributes>): (r: seq<string>)
    ensures forall v :: v in r <==> v in vs && IsSpatial(variables, v)
  {
    if |vs| == 0 then []
    else
      var last := vs[|vs| - 1];
      assert vs == vs[..|vs| - 1] + [last];
      SpatialOnly(vs[..|vs| - 1], variables) + (if IsSpatial(variables, last) then [last] else [])
  }

  /**
   * The variables the sidebar offers: every variable of the catalog that
   * the metadata does not mark as scalar (all of them when the metadata
   * has no `variables` key), each once, in ascending order.
   */
  function SpatialVariables(rows: seq<CatalogRecord>, meta: VariableMetadata): (r: seq<string>)
    ensures StrictlySorted(r)
    ensures forall v :: v in r <==>
      (exists i :: 0 <= i < |rows| && rows[i].variable == v) && (meta.None? || IsSpatial(meta.value, v))
  {
    if |rows| == 0 then []
    else
      var all := Unique(VariableColumn(rows));
      assert forall v :: v in all <==> exists i :: 0 <= i < |rows| && rows[i].variable == v by {
        forall v ensures v in all <==> exists i :: 0 <= i < |rows| && rows[i].variable == v {
          if v in all {
            var i :| 0 <= i < |rows| && VariableColumn(rows)[i] == v;
          }
          if exists i :: 0 <= i < |rows| && rows[i].variable == v {
            var i :| 0 <= i < |rows| && rows[i].variable == v;
            assert VariableColumn(rows)[i] == v;
          }
        }
      }
      SortedSet(if meta.None? then all else SpatialOnly(all, meta.value))
  }

  // ---------------------------------------------------------------------
  // Descriptions and option labels
  // ---------------------------------------------------------------------

  /**
   * The description shown for a variable: its `description`, followed by
   * ` (units)` when it has non-empty `units`; nothing when the description
   * is empty or missing.
   */
  function Describe(info: Attributes): (r: Option<string>)
    ensures r.Some? <==> Attr(info, "description", "") != ""
    ensures r.Some? ==> StartsWith(r.value, Attr(info, "description", ""))
    ensures r.Some? && Attr(info, "units", "") == "" ==> r.value == Attr(info, "description", "")
    ensures r.Some? && Attr(info, "units", "") != "" ==> EndsWith(r.value, " (" + Attr(info, "units", "") + ")")
  {
    var desc := Attr(info, "description", "");
    var units := Attr(info, "units", "");
    if desc == "" then None
    else
      var r := desc + (if units == "" then "" else " (" + units + ")");
      assert r[..|desc|] == desc;
      Some(r)
  }

  /** The dict the description loop builds, one metadata entry at a time. */
  function DescriptionsOf(entries: Dict<string, Attributes>): (d: Dict<string, string>)
    ensures DistinctKeys(d)
  {
    if |entries| == 0 then []
    else
      var d := DescriptionsOf(entries[..|entries| - 1]);
      var (name, info) := entries[|entries| - 1];
      match Describe(info)
      case None => d
      case Some(caption) => Put(d, name, caption)
  }

  /** `load_variable_descriptions` once the metadata file is read. */
  method LoadVariableDescriptions(meta: VariableMetadata) returns (descriptions: Dict<string, string>)
    ensures meta.None? ==> descriptions == []
    ensures meta.Some? ==> descriptions == DescriptionsOf(meta.value)
  {
    descriptions := [];
    if meta.Some? {
      var entries := meta.value;
      var i := 0;
      while i < |entries|
        invariant 0 <= i <= |entries|
        invariant descriptions == DescriptionsOf(entries[..i])
      {
        assert entries[..i + 1][..i] == entries[..i];
        var (name, info) := entries[i];
        var caption := Describe(info);
        if caption.Some? {
          descriptions := Put(descriptions, name, caption.value);
        }
        i := i + 1;
      }
      assert entries[..i] == entries;
    }
  }

  /**
   * A variable has a description exactly when its metadata entry has a
   * non-empty `description`, and it is the one `Describe` builds.
   */
  lemma {:induction false} DescriptionsLookup(entries: Dict<string, Attributes>, name: string)
    requires DistinctKeys(entries)
    ensures Get(DescriptionsOf(entries), name) ==
      match Get(entries, name)
      case None => None
      case Some(info) => Describe(info)
    decreases |entries|
  {
    if |entries| > 0 {
      var init := entries[..|entries| - 1];
      var (n0, i0) := entries[|entries| - 1];
      assert entries == init + [(n0, i0)];
      var d := DescriptionsOf(init);
      DescriptionsLookup(init, name);
      GetAppend(init, n0, i0, name);
      assert n0 !in Keys(init);
      match Describe(i0)
      case None =>
      case Some(caption) =>
        GetPut(d, n0, caption, name);
    }
  }

  /**
   * A description cut for display: one longer than `maxLength` keeps its
   * first `maxLength - 3` characters (Python slice semantics, so a negative
   * bound counts from the end) and gains `...`.
   */
  function Truncate(desc: string, maxLength: int): (r: string)
    ensures |desc| <= maxLength ==> r == desc
    ensures |desc| > maxLength ==> EndsWith(r, "...") && StartsWith(desc, r[..|r| - 3])
    ensures 3 <= maxLength < |desc| ==> |r| == maxLength && r[..maxLength - 3] == desc[..maxLength - 3]
  {
    if |desc| > maxLength then
      var r := SliceTo(desc, maxLength - 3) + "...";
      assert r[..|r| - 3] == SliceTo(desc, maxLength - 3);
      r
    else desc
  }

  /**
   * The display label of an option: the option itself when it has no
   * (or an empty) description, otherwise `opt - desc` with the description
   * truncated.
   */
  function OptionLabel(opt: string, descriptions: Dict<string, string>, maxLength: int): (caption: string)
    ensures StartsWith(caption, opt)
    ensures Get(descriptions, opt).GetOr("") == "" ==> caption == opt
    ensures Get(descriptions, opt).GetOr("") != "" ==>
      StartsWith(caption, opt + " - ") && caption[|opt| + 3..] == Truncate(Get(descriptions, opt).value, maxLength)
    ensures 3 <= maxLength ==> |caption| <= |opt| + 3 + maxLength
  {
    var desc := Get(descriptions, opt).GetOr("");
    if desc != "" then
      var caption := opt + " - " + Truncate(desc, maxLength);
      assert caption[..|opt|] == opt && caption[..|opt| + 3] == opt + " - ";
      caption
    else opt
  }

  /** The dict the formatting loop builds: label to option, later options overwriting. */
  function Formatted(options: seq<string>, descriptions: Dict<string, string>, maxLength: int): (f: Dict<string, string>)
    ensures DistinctKeys(f)
  {
    if |options| == 0 then []
    else
      var opt := options[|options| - 1];
      Put(Formatted(options[..|options| - 1], descriptions, maxLength), OptionLabel(opt, descriptions, maxLength), opt)
  }

  /** `format_options_with_descriptions(options, descriptions, max_length)`. */
  method FormatOptionsWithDescriptions(options: seq<string>, descriptions: Dict<string, string>, maxLength: int)
    returns (formatted: Dict<string, string>)
    ensures formatted == Formatted(options, descriptions, maxLength)
  {
    formatted := [];
    for i := 0 to |options|
      invariant formatted == Formatted(options[..i], descriptions, maxLength)
    {
      assert options[..i + 1][..i] == options[..i];
      var opt := options[i];
      var desc := Get(descriptions, opt).GetOr("");
      var caption;
      if desc != "" {
        if |desc| > maxLength {
          desc := SliceTo(desc, maxLength - 3) + "...";
        }
        caption := opt + " - " + desc;
      } else {
        caption := opt;
      }
      formatted := Put(formatted, caption, opt);
    }
    assert options[..|options|] == options;
  }

  /**
   * Every value of the formatted dict is an input option filed under its
   * own label, and every option's label is a key.
   */
  lemma {:induction false} FormattedEntries(options: seq<string>, descriptions: Dict<string, string>, maxLength: int)
    ensures forall i :: 0 <= i < |Formatted(options, descriptions, maxLength)| ==>
      Formatted(options, descriptions, maxLength)[i].1 in options &&
      Formatted(options, descriptions, maxLength)[i].0 == OptionLabel(Formatted(options, descriptions, maxLength)[i].1, descriptions, maxLength)
    ensures forall o :: o in options ==> OptionLabel(o, descriptions, maxLength) in Keys(Formatted(options, descriptions, maxLength))
    decreases |options|
  {
    if |options| > 0 {
      var init := options[..|options| - 1];
      var opt := options[|options| - 1];
      assert options == init + [opt];
      var d := Formatted(init, descriptions, maxLength);
      var caption := OptionLabel(opt, descriptions, maxLength);
      FormattedEntries(init, descriptions, maxLength);
      PutEntries(d, caption, opt);
      var f := Put(d, caption, opt);
      assert caption in Keys(f) by {
        var j :| 0 <= j < |f| && f[j] == (caption, opt);
        assert Keys(f)[j] == caption;
      }
      forall o | o in options ensures OptionLabel(o, descriptions, maxLength) in Keys(f) {
        if o != opt {
          assert o in init;
        }
      }
    }
  }

  /**
   * When distinct options get distinct labels, each label looks up its own
   * option.
   */
  lemma FormattedLookup(options: seq<string>, descriptions: Dict<string, string>, maxLength: int)
    requires forall a, b :: (a in options && b in options &&
      OptionLabel(a, descriptions, maxLength) == OptionLabel(b, descriptions, maxLength)) ==> a == b
    ensures forall o :: o in options ==>
      Get(Formatted(options, descriptions, maxLength), OptionLabel(o, descriptions, maxLength)) == Some(o)
  {
    var f := Formatted(options, descriptions, maxLength);
    FormattedEntries(options, descriptions, maxLength);
    forall o | o in options
      ensures Get(f, OptionLabel(o, descriptions, maxLength)) == Some(o)
    {
      var caption := OptionLabel(o, descriptions, maxLength);
      var r := Get(f, caption);
      var j :| 0 <= j < |f| && f[j] == (caption, r.value);
    }
  }

  // ---------------------------------------------------------------------
  // The NaN-marker text
  // ---------------------------------------------------------------------

  /** `[p.strip() for p in pieces]`. */
  function StripEach(pieces: seq<string>): (r: seq<string>)
    ensures |r| == |pieces|
    ensures forall i :: 0 <= i < |pieces| ==> r[i] == Strip(pieces[i])
  {
    seq(|pieces|, i requires 0 <= i < |pieces| => Strip(pieces[i]))
  }

  /**
   * The loop over the pieces: each one that `parse` (Python's `float`)
   * accepts contributes its value, in order.
   */
  function ParseEach(pieces: seq<string>, parse: string -> Option<real>): (values: seq<real>)
    ensures |values| <= |pieces|
  {
    if |pieces| == 0 then []
    else
      var last := parse(pieces[|pieces| - 1]);
      ParseEach(pieces[..|pieces| - 1], parse) + (if last.Some? then [last.value] else [])
  }

  /**
   * The NaN-marker list for the text `text`: nothing for blank text,
   * otherwise the values of the comma-separated pieces that parse once
   * stripped.
   */
  function NanValues(text: string, parse: string -> Option<real>): (values: seq<real>)
    ensures Strip(text) == [] ==> values == []
    ensures |values| <= |Split(text, ',')|
  {
    if Strip(text) == [] then [] else ParseEach(StripEach(Split(text, ',')), parse)
  }

  /** One more piece adds its value, if it parses. */
  lemma ParseEachStep(pieces: seq<string>, parse: string -> Option<real>, i: nat)
    requires i < |pieces|
    ensures ParseEach(pieces[..i + 1], parse) ==
      ParseEach(pieces[..i], parse) + (if parse(pieces[i]).Some? then [parse(pieces[i]).value] else [])
  {
    var s := pieces[..i + 1];
    assert s[..|s| - 1] == pieces[..i] && s[|s| - 1] == pieces[i];
  }

  /** A value is in the list exactly when some piece parses to it. */
  lemma {:induction false} ParseEachMember(pieces: seq<string>, parse: string -> Option<real>, y: real)
    ensures y in ParseEach(pieces, parse) <==> exists i :: 0 <= i < |pieces| && parse(pieces[i]) == Some(y)
    decreases |pieces|
  {
    if |pieces| > 0 {
      var n := |pieces| - 1;
      var init := pieces[..n];
      ParseEachMember(init, parse, y);
      if exists i :: 0 <= i < |pieces| && parse(pieces[i]) == Some(y) {
        var i :| 0 <= i < |pieces| && parse(pieces[i]) == Some(y);
        if i < n {
          assert init[i] == pieces[i];
        }
      }
      if exists i :: 0 <= i < |init| && parse(init[i]) == Some(y) {
        var i :| 0 <= i < |init| && parse(init[i]) == Some(y);
        assert init[i] == pieces[i];
      }
    }
  }

  /** When every piece parses, there is one value per piece, in order. */
  lemma {:induction false} ParseEachAll(pieces: seq<string>, parse: string -> Option<real>)
    requires forall i :: 0 <= i < |pieces| ==> parse(pieces[i]).Some?
    ensures |ParseEach(pieces, parse)| == |pieces|
    ensures forall i :: 0 <= i < |pieces| ==> ParseEach(pieces, parse)[i] == parse(pieces[i]).value
    decreases |pieces|
  {
    if |pieces| > 0 {
      var n := |pieces| - 1;
      var init := pieces[..n];
      assert forall i :: 0 <= i < n ==> init[i] == pieces[i];
      ParseEachAll(init, parse);
    }
  }

  /** Pieces that do not parse are skipped: the values keep the order of the pieces. */
  lemma {:induction false} ParseEachAppend(a: seq<string>, b: seq<string>, parse: string -> Option<real>)
    ensures ParseEach(a + b, parse) == ParseEach(a, parse) + ParseEach(b, parse)
    decreases |b|
  {
    if |b| > 0 {
      var init := b[..|b| - 1];
      assert (a + b)[..|a + b| - 1] == a + init;
      assert (a + b)[|a + b| - 1] == b[|b| - 1];
      ParseEachAppend(a, init, parse);
    }
    else {
      assert a + b == a;
    }
  }

  // ---------------------------------------------------------------------
  // Keeping selections valid
  // ---------------------------------------------------------------------

  /** `[m for m in selection if m in options]`. */
  function Retain(selection: seq<string>, options: seq<string>): (r: seq<string>)
    ensures |r| <= |selection|
    ensures forall x :: x in r <==> x in selection && x in options
    ensures forall x :: multiset(r)[x] == if x in options then multiset(selection)[x] else 0
  {
    if |selection| == 0 then []
    else
      var init := selection[..|selection| - 1];
      var last := selection[|selection| - 1];
      assert selection == init + [last];
      Retain(init, options) + (if last in options then [last] else [])
  }

  /**
   * The kept items stay in the selection's order: refreshing a selection
   * is refreshing each part of it and putting the parts back together.
   */
  lemma {:induction false} RetainAppend(a: seq<string>, b: seq<string>, options: seq<string>)
    ensures Retain(a + b, options) == Retain(a, options) + Retain(b, options)
    decreases |b|
  {
    if |b| == 0 {
      assert a + b == a;
    } else {
      var init, x := b[..|b| - 1], b[|b| - 1];
      var ai := a + init;
      assert b == init + [x];
      assert a + b == ai + [x];
      RetainSnoc(ai, x, options);
      RetainSnoc(init, x, options);
      RetainAppend(a, init, options);
      var ra, ri, tail := Retain(a, options), Retain(init, options), if x in options then [x] else [];
      assert Retain(a + b, options) == (ra + ri) + tail;
      assert Retain(b, options) == ri + tail;
      ConcatAssoc(ra, ri, tail);
    }
  }

  /** One more item at the end is kept, last, exactly when it is offered. */
  lemma RetainSnoc(s: seq<string>, x: string, options: seq<string>)
    ensures Retain(s + [x], options) == Retain(s, options) + (if x in options then [x] else [])
  {
    assert (s + [x])[..|s|] == s;
  }

  /** A selection whose items are all still offered is kept as it is. */
  lemma {:induction false} RetainAllOffered(selection: seq<string>, options: seq<string>)
    requires forall x :: x in selection ==> x in options
    ensures Retain(selection, options) == selection
    decreases |selection|
  {
    if |selection| > 0 {
      var init := selection[..|selection| - 1];
      assert selection == init + [selection[|selection| - 1]];
      RetainAllOffered(init, options);
    }
  }

  /** Refreshing a selection twice against the same options changes nothing more. */
  lemma RetainIdempotent(selection: seq<string>, options: seq<string>)
    ensures Retain(Retain(selection, options), options) == Retain(selection, options)
  {
    RetainAllOffered(Retain(selection, options), options);
  }

  // ---------------------------------------------------------------------
  // The selection state
  // ---------------------------------------------------------------------

  /** `DataSelectionState`: the catalog and what the user has picked. */
  class DataSelectionState {
    var fileIndex: seq<CatalogRecord>
    var selectedVariable: Option<string>
    var selectedModels: seq<string>
    var selectedExperiments: seq<string>
    var timeStep: nat
    var timeStepMode: string
    var nanValues: string

    /** The declared defaults. */
    constructor ()
      ensures fileIndex == [] && selectedVariable == None
      ensures selectedModels == [] && selectedExperiments == []
      ensures timeStep == 0 && timeStepMode == "first" && nanValues == "0"
    {
      fileIndex := [];
      selectedVariable := None;
      selectedModels := [];
      selectedExperiments := [];
      timeStep := 0;
      timeStepMode := "first";
      nanValues := "0";
    }

    /** `get_available_variables`, with the metadata file's content as a parameter. */
    method AvailableVariables(meta: VariableMetadata) returns (r: seq<string>)
      ensures r == SpatialVariables(fileIndex, meta)
    {
      if |fileIndex| == 0 {
        return [];
      }
      var all := Unique(VariableColumn(fileIndex));
      var spatial: seq<string> := [];
      if meta.Some? {
        var i := 0;
        while i < |all|
          invariant 0 <= i <= |all|
          invariant spatial == SpatialOnly(all[..i], meta.value)
        {
          assert all[..i + 1][..i] == all[..i];
          if IsSpatial(meta.value, all[i]) {
            spatial := spatial + [all[i]];
          }
          i := i + 1;
        }
        assert all[..i] == all;
      } else {
        spatial := all;
      }
      r := SortedSet(spatial);
    }

    /**
     * `get_available_models`: the models with a file of the selected
     * variable, each once, ascending; none without a selected variable.
     */
    function AvailableModels(): (r: seq<string>)
      reads this
      ensures StrictlySorted(r)
      ensures forall m :: m in r <==> (selectedVariable.Some? &&
        exists i :: 0 <= i < |fileIndex| && fileIndex[i].variable == selectedVariable.value && ModelOf(fileIndex[i]) == m)
    {
      if |fileIndex| == 0 || selectedVariable.None? then []
      else
        var v := selectedVariable.value;
        SortedSet(Column(fileIndex, (row: CatalogRecord) => row.variable == v, ModelOf))
    }

    /**
     * `get_available_experiments`: the experiments with a file of the
     * selected variable, from a selected model when any model is selected.
     */
    function AvailableExperiments(): (r: seq<string>)
      reads this
      ensures StrictlySorted(r)
      ensures forall e :: e in r <==> (selectedVariable.Some? &&
        exists i :: 0 <= i < |fileIndex| && fileIndex[i].variable == selectedVariable.value &&
          (|selectedModels| == 0 || ModelOf(fileIndex[i]) in selectedModels) && fileIndex[i].experiment == e)
    {
      if |fileIndex| == 0 || selectedVariable.None? then []
      else
        var v := selectedVariable.value;
        var models := selectedModels;
        SortedSet(Column(fileIndex, (row: CatalogRecord) => row.variable == v && (|models| == 0 || ModelOf(row) in models),
                         (row: CatalogRecord) => row.experiment))
    }

    /** Whether `row` is one of the files the current selection names. */
    predicate Selects(row: CatalogRecord)
      reads this
    {
      selectedVariable == Some(row.variable) && ModelOf(row) in selectedModels && row.experiment in selectedExperiments
    }

    /**
     * `get_matched_files`: exactly the catalog rows of the selected
     * variable, a selected model and a selected experiment, each as often
     * as in the catalog.
     */
    function MatchedFiles(): (r: seq<CatalogRecord>)
      reads this
      ensures forall row :: row in r <==> row in fileIndex && Selects(row)
      ensures forall row :: multiset(r)[row] == if Selects(row) then multiset(fileIndex)[row] else 0
    {
      if |fileIndex| == 0 || selectedVariable.None? then []
      else
        var v := selectedVariable.value;
        var models := selectedModels;
        var experiments := selectedExperiments;
        var keep := (row: CatalogRecord) => row.variable == v && ModelOf(row) in models && row.experiment in experiments;
        assert forall row :: keep(row) == Selects(row);
        forall row ensures multiset(Filter(fileIndex, keep))[row] == if keep(row) then multiset(fileIndex)[row] else 0 {
          FilterMultiset(fileIndex, keep, row);
        }
        Filter(fileIndex, keep)
    }

    /** `get_nan_values_list`, with Python's `float` as the parameter `parse`. */
    method NanValuesList(parse: string -> Option<real>) returns (values: seq<real>)
      ensures values == NanValues(nanValues, parse)
    {
      if Strip(nanValues) == [] {
        return [];
      }
      var pieces := Split(nanValues, ',');
      ghost var stripped := StripEach(pieces);
      values := [];
      for i := 0 to |pieces|
        invariant values == ParseEach(stripped[..i], parse)
      {
        ParseEachStep(stripped, parse, i);
        var v := parse(Strip(pieces[i]));
        if v.Some? {
          values := values + [v.value];
        }
      }
      assert stripped[..|pieces|] == stripped;
    }

    /**
     * `get_time_step_value`: the index of the step to show, `-1` for the
     * last one, `None` for all of them.
     */
    function TimeStepValue(): (r: Option<int>)
      reads this
      ensures r.None? <==> timeStepMode == "all"
      ensures r.Some? ==> -1 <= r.value
      ensures r == Some(-1) <==> timeStepMode == "last"
      ensures timeStepMode != "first" && timeStepMode != "last" && timeStepMode != "all" ==> r == Some(timeStep)
    {
      if timeStepMode == "first" then Some(0)
      else if timeStepMode == "last" then Some(-1)
      else if timeStepMode == "all" then None
      else Some(timeStep as int)
    }

    /** `update_variable_options`: a selected variable no longer offered is dropped. */
    method UpdateVariableOptions(meta: VariableMetadata)
      modifies this
      ensures selectedVariable.Some? ==> selectedVariable.value in SpatialVariables(fileIndex, meta)
      ensures selectedVariable == old(selectedVariable) || selectedVariable == None
      ensures old(selectedVariable).Some? && old(selectedVariable).value in SpatialVariables(fileIndex, meta) ==>
        selectedVariable == old(selectedVariable)
      ensures fileIndex == old(fileIndex) && selectedModels == old(selectedModels)
      ensures selectedExperiments == old(selectedExperiments) && timeStep == old(timeStep)
      ensures timeStepMode == old(timeStepMode) && nanValues == old(nanValues)
    {
      var options := AvailableVariables(meta);
      if selectedVariable.Some? && selectedVariable.value !in options {
        selectedVariable := None;
      }
    }

    /** `update_models_options`: keep the selected models still offered, in order. */
    method UpdateModelsOptions()
      modifies this
      ensures selectedModels == Retain(old(selectedModels), old(AvailableModels()))
      ensures AvailableModels() == old(AvailableModels())
      ensures forall m :: m in selectedModels ==> m in AvailableModels()
      ensures fileIndex == old(fileIndex) && selectedVariable == old(selectedVariable)
      ensures selectedExperiments == old(selectedExperiments) && timeStep == old(timeStep)
      ensures timeStepMode == old(timeStepMode) && nanValues == old(nanValues)
    {
      var options := AvailableModels();
      selectedModels := Retain(selectedModels, options);
      assert AvailableModels() == options by {
        SortedUnique(AvailableModels(), options);
      }
    }

    /** `update_experiments_options`: keep the selected experiments still offered, in order. */
    method UpdateExperimentsOptions()
      modifies this
      ensures selectedExperiments == Retain(old(selectedExperiments), old(AvailableExperiments()))
      ensures AvailableExperiments() == old(AvailableExperiments())
      ensures forall e :: e in selectedExperiments ==> e in AvailableExperiments()
      ensures fileIndex == old(fileIndex) && selectedVariable == old(selectedVariable)
      ensures selectedModels == old(selectedModels) && timeStep == old(timeStep)
      ensures timeStepMode == old(timeStepMode) && nanValues == old(nanValues)
    {
      var options := AvailableExperiments();
      selectedExperiments := Retain(selectedExperiments, options);
      assert AvailableExperiments() == options by {
        SortedUnique(AvailableExperiments(), options);
      }
    }
  }

  // ---------------------------------------------------------------------
  // How the queries fit together
  // ---------------------------------------------------------------------

  /**
   * The offered models are the only strictly ascending list of the models
   * that have a file of the selected variable.
   */
  lemma ModelsCanonical(s: DataSelectionState, t: seq<string>)
    requires StrictlySorted(t)
    requires forall m :: m in t <==> (s.selectedVariable.Some? &&
      exists i :: 0 <= i < |s.fileIndex| && s.fileIndex[i].variable == s.selectedVariable.value && ModelOf(s.fileIndex[i]) == m)
    ensures t == s.AvailableModels()
  {
    SortedUnique(t, s.AvailableModels());
  }

  /**
   * With models selected, every offered experiment has a file from a model
   * that is both selected and offered.
   */
  lemma ExperimentsFromSelectedModels(s: DataSelectionState, e: string)
    requires |s.selectedModels| > 0
    requires e in s.AvailableExperiments()
    ensures exists m :: m in s.selectedModels && m in s.AvailableModels()
  {
    var i :| 0 <= i < |s.fileIndex| && s.fileIndex[i].variable == s.selectedVariable.value &&
      ModelOf(s.fileIndex[i]) in s.selectedModels && s.fileIndex[i].experiment == e;
    assert ModelOf(s.fileIndex[i]) in s.AvailableModels();
  }

  /**
   * Every matched file's model and experiment are among the options the
   * sidebar offers for the current selection.
   */
  lemma MatchedFilesOffered(s: DataSelectionState, row: CatalogRecord)
    requires row in s.MatchedFiles()
    ensures ModelOf(row) in s.AvailableModels()
    ensures row.experiment in s.AvailableExperiments()
  {
    var i :| 0 <= i < |s.fileIndex| && s.fileIndex[i] == row;
    assert ModelOf(s.fileIndex[i]) in s.AvailableModels();
    assert s.fileIndex[i].experiment in s.AvailableExperiments();
  }
}
