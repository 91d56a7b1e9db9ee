/**
 * Form heuristics of dw-downloader.py over an abstract HTML form:
 * `choose_export_form`, `build_form_payload`,
 * `guess_year_month_field_names` and `force_output_format_xml`.
 *
 * A form is the ordered lists BeautifulSoup's `find_all` returns. Missing
 * `name`, `type` and `value` attributes of an input are "": the code only
 * reads them through `not`/`or`/`get(..., "")`, which treat the two alike.
 * An option keeps the difference, because `has_attr("value")` is asked.
 */
module Forms {

  import opened Wrappers
  import opened Text
  import opened Entries

  /** An `<input>`: name, type and value attributes, and whether `checked` is present. */
  datatype Input = Input(name: string, inputType: string, value: string, checked: bool)

  /** An `<option>`: its value attribute if any, `get_text(strip=True)`, and whether `selected` is present. */
  datatype SelectOption = SelectOption(value: Option<string>, caption: string, selected: bool)

  datatype Select = Select(name: string, options: seq<SelectOption>)

  /** A `<textarea>` with its `get_text()`. */
  datatype Textarea = Textarea(name: string, text: string)

  /** A `<form>`: its action attribute, `get_text(" ", strip=True)`, and its controls in document order. */
  datatype Form = Form(action: Option<string>, text: string, inputs: seq<Input>,
                       selects: seq<Select>, textareas: seq<Textarea>)

  // ---------------------------------------------------------------- choose_export_form

  /** `f.find("select", {"name": name})` finds something. */
  predicate HasSelectNamed(f: Form, name: string) {
    exists i :: 0 <= i < |f.selects| && f.selects[i].name == name
  }

  /** Either test of the single pass: a year/month select, or "export" in the lower-cased text. */
  predicate IsExportCandidate(f: Form) {
    HasSelectNamed(f, "year") || HasSelectNamed(f, "month") || Contains(Lower(f.text), "export")
  }

  /** The first index whose element satisfies `p`: the early `return` of a Python search loop. */
  function FirstIndex<T>(items: seq<T>, p: T -> bool): (r: Option<nat>)
    ensures r.Some? ==> r.value < |items| && p(items[r.value])
                        && forall j :: 0 <= j < r.value ==> !p(items[j])
    ensures r.None? ==> forall j :: 0 <= j < |items| ==> !p(items[j])
  {
    if items == [] then None
    else if p(items[0]) then Some(0)
    else
      match FirstIndex(items[1..], p)
      case Some(j) => Some(j + 1)
      case None => None
  }

  /** The index a search loop stops at is the one `FirstIndex` names. */
  lemma FirstIndexAt<T>(items: seq<T>, p: T -> bool, i: nat)
    requires i < |items| && p(items[i]) && forall j :: 0 <= j < i ==> !p(items[j])
    ensures FirstIndex(items, p) == Some(i)
  {
    var r := FirstIndex(items, p);
    assert r.Some?;
    assert !(r.value < i) && !(i < r.value);
  }

  datatype FormError = NoFormFound

  /** `choose_export_form` on `soup.find_all("form")`. */
  function ChooseExportForm(forms: seq<Form>): Result<Form, FormError> {
    if forms == [] then Failure(NoFormFound)
    else
      match FirstIndex(forms, IsExportCandidate)
      case Some(i) => Success(forms[i])
      case None => Success(forms[0])
  }

  /**
   * No forms raise; otherwise the result is the first form, in document
   * order, that passes either test, or `forms[0]` when none does. It is
   * always one of the input forms.
   */
  lemma ChooseExportFormSpec(forms: seq<Form>)
    ensures ChooseExportForm(forms).Failure? <==> forms == []
    ensures ChooseExportForm(forms).Success? ==> ChooseExportForm(forms).value in forms
    ensures ChooseExportForm(forms).Success? ==>
              var f := ChooseExportForm(forms).value;
              (exists i :: 0 <= i < |forms| && forms[i] == f && IsExportCandidate(f)
                           && forall j :: 0 <= j < i ==> !IsExportCandidate(forms[j]))
              || (f == forms[0] && forall j :: 0 <= j < |forms| ==> !IsExportCandidate(forms[j]))
  {
    if forms != [] {
      var r := FirstIndex(forms, IsExportCandidate);
      if r.Some? {
        assert forms[r.value] == ChooseExportForm(forms).value;
      }
    }
  }

  /** One pass, no priority between the tests: an earlier "export" form beats a later year/month form. */
  lemma SinglePassChoice(first: Form, second: Form)
    requires Contains(Lower(first.text), "export") && HasSelectNamed(second, "year")
    ensures ChooseExportForm([first, second]) == Success(first)
  {
    FirstIndexAt([first, second], IsExportCandidate, 0);
  }

  // ---------------------------------------------------------------- build_form_payload

  /** Input types that carry no data. */
  const NonDataTypes: set<string> := {"submit", "button", "image", "file"}

  /** `(inp.get("type") or "text").lower()`. */
  function InputType(inp: Input): string {
    Lower(if inp.inputType == "" then "text" else inp.inputType)
  }

  predicate IsToggle(itype: string) {
    itype == "checkbox" || itype == "radio"
  }

  /** A named data input; a checkbox or radio only when checked. */
  predicate InputSubmitted(inp: Input) {
    inp.name != "" && InputType(inp) !in NonDataTypes && (IsToggle(InputType(inp)) ==> inp.checked)
  }

  /** A checked checkbox or radio with an empty value submits "1". */
  function InputEntry(inp: Input): (string, string) {
    (inp.name, if IsToggle(InputType(inp)) && inp.value == "" then "1" else inp.value)
  }

  /** `sel.find("option", selected=True)` matches an option carrying `selected`. */
  predicate IsSelected(o: SelectOption) {
    o.selected
  }

  /** The option a select submits: the first selected one, else the first one, else none. */
  function ChosenOption(sel: Select): Option<SelectOption> {
    match FirstIndex(sel.options, IsSelected)
    case Some(i) => Some(sel.options[i])
    case None => if sel.options == [] then None else Some(sel.options[0])
  }

  /** The value attribute when present, even empty; otherwise the stripped text. */
  function OptionSubmitValue(o: SelectOption): string {
    match o.value
    case Some(v) => v
    case None => o.caption
  }

  predicate SelectSubmitted(sel: Select) {
    sel.name != "" && sel.options != []
  }

  function SelectEntry(sel: Select): (string, string) {
    (sel.name, match ChosenOption(sel) case Some(o) => OptionSubmitValue(o) case None => "")
  }

  predicate TextareaSubmitted(ta: Textarea) {
    ta.name != ""
  }

  function TextareaEntry(ta: Textarea): (string, string) {
    (ta.name, ta.text)
  }

  /** The payload: inputs, then selects, then textareas, each loop overwriting what came before. */
  function FormPayload(form: Form): map<string, string> {
    Collect(form.inputs, InputSubmitted, InputEntry)
    + Collect(form.selects, SelectSubmitted, SelectEntry)
    + Collect(form.textareas, TextareaSubmitted, TextareaEntry)
  }

  /** One more item of a collected list: updated when kept, unchanged otherwise. */
  lemma CollectStep<T>(base: map<string, string>, items: seq<T>, i: nat, keep: T -> bool, entry: T -> (string, string))
    requires i < |items|
    ensures base + Collect(items[..i + 1], keep, entry)
            == if keep(items[i]) then (base + Collect(items[..i], keep, entry))[entry(items[i]).0 := entry(items[i]).1]
               else base + Collect(items[..i], keep, entry)
  {
    assert items[..i + 1] == items[..i] + [items[i]];
    CollectSnoc(items[..i], items[i], keep, entry);
  }

  /** `build_form_payload`: three loops filling one dict. */
  method BuildFormPayload(form: Form) returns (data: map<string, string>)
    ensures data == FormPayload(form)
  {
    data := map[];
    for i := 0 to |form.inputs|
      invariant data == map[] + Collect(form.inputs[..i], InputSubmitted, InputEntry)
    {
      CollectStep(map[], form.inputs, i, InputSubmitted, InputEntry);
      var inp := form.inputs[i];
      var itype := Lower(if inp.inputType == "" then "text" else inp.inputType);
      if inp.name != "" && itype !in NonDataTypes {
        if itype == "checkbox" || itype == "radio" {
          if inp.checked {
            data := data[inp.name := if inp.value != "" then inp.value else "1"];
          }
        } else {
          data := data[inp.name := inp.value];
        }
      }
    }
    assert form.inputs[..|form.inputs|] == form.inputs;
    ghost var fromInputs := data;
    for i := 0 to |form.selects|
      invariant data == fromInputs + Collect(form.selects[..i], SelectSubmitted, SelectEntry)
    {
      CollectStep(fromInputs, form.selects, i, SelectSubmitted, SelectEntry);
      var sel := form.selects[i];
      var opt: Option<SelectOption> := None;
      var first := FirstIndex(sel.options, IsSelected);
      if first.Some? {
        opt := Some(sel.options[first.value]);
      } else if sel.options != [] {
        opt := Some(sel.options[0]);
      }
      if sel.name != "" && opt.Some? {
        data := data[sel.name := if opt.value.value.Some? then opt.value.value.value else opt.value.caption];
      }
    }
    assert form.selects[..|form.selects|] == form.selects;
    ghost var fromSelects := data;
    for i := 0 to |form.textareas|
      invariant data == fromSelects + Collect(form.textareas[..i], TextareaSubmitted, TextareaEntry)
    {
      CollectStep(fromSelects, form.textareas, i, TextareaSubmitted, TextareaEntry);
      var ta := form.textareas[i];
      if ta.name != "" {
        data := data[ta.name := ta.text];
      }
    }
    assert form.textareas[..|form.textareas|] == form.textareas;
  }

  /** A select submits its first `selected` option, else its first option; one without options is omitted. */
  lemma ChosenOptionRule(sel: Select)
    ensures ChosenOption(sel).None? <==> sel.options == []
    ensures ChosenOption(sel).Some? ==>
              exists i :: 0 <= i < |sel.options| && ChosenOption(sel) == Some(sel.options[i])
                          && (sel.options[i].selected || (i == 0 && forall j :: 0 <= j < |sel.options| ==> !sel.options[j].selected))
                          && forall j :: 0 <= j < i ==> !sel.options[j].selected
  {
    var r := FirstIndex(sel.options, IsSelected);
    if r.Some? {
      assert ChosenOption(sel) == Some(sel.options[r.value]);
    } else if sel.options != [] {
      assert ChosenOption(sel) == Some(sel.options[0]);
    }
  }

  /** Which names the payload holds: those of submitted inputs, selects with options, and named textareas. */
  lemma FormPayloadKeys(form: Form, k: string)
    ensures k in FormPayload(form)
            <==> (exists i :: 0 <= i < |form.inputs| && InputSubmitted(form.inputs[i]) && form.inputs[i].name == k)
                 || (exists i :: 0 <= i < |form.selects| && SelectSubmitted(form.selects[i]) && form.selects[i].name == k)
                 || (exists i :: 0 <= i < |form.textareas| && form.textareas[i].name != "" && form.textareas[i].name == k)
  {
    CollectKeys(form.inputs, InputSubmitted, InputEntry, k);
    CollectKeys(form.selects, SelectSubmitted, SelectEntry, k);
    CollectKeys(form.textareas, TextareaSubmitted, TextareaEntry, k);
  }

  /** Textareas come last: the last named textarea with a name decides its value. */
  lemma TextareaOverwrites(form: Form, i: nat)
    requires i < |form.textareas| && form.textareas[i].name != ""
    requires forall j :: i < j < |form.textareas| ==> form.textareas[j].name != form.textareas[i].name
    ensures form.textareas[i].name in FormPayload(form)
    ensures FormPayload(form)[form.textareas[i].name] == form.textareas[i].text
  {
    CollectLast(form.textareas, TextareaSubmitted, TextareaEntry, i);
  }

  /** A select overwrites inputs of its name; its value stands unless a textarea has the name. */
  lemma SelectOverwritesInputs(form: Form, i: nat)
    requires i < |form.selects| && SelectSubmitted(form.selects[i])
    requires forall j :: i < j < |form.selects| && SelectSubmitted(form.selects[j]) ==> form.selects[j].name != form.selects[i].name
    requires forall j :: 0 <= j < |form.textareas| ==> form.textareas[j].name != form.selects[i].name
    ensures form.selects[i].name in FormPayload(form)
    ensures FormPayload(form)[form.selects[i].name] == SelectEntry(form.selects[i]).1
  {
    CollectLast(form.selects, SelectSubmitted, SelectEntry, i);
    CollectKeys(form.textareas, TextareaSubmitted, TextareaEntry, form.selects[i].name);
  }

  /** An input's value stands when no later input, no select with options and no textarea has its name. */
  lemma InputValueStands(form: Form, i: nat)
    requires i < |form.inputs| && InputSubmitted(form.inputs[i])
    requires forall j :: i < j < |form.inputs| && InputSubmitted(form.inputs[j]) ==> form.inputs[j].name != form.inputs[i].name
    requires forall j :: 0 <= j < |form.selects| && SelectSubmitted(form.selects[j]) ==> form.selects[j].name != form.inputs[i].name
    requires forall j :: 0 <= j < |form.textareas| ==> form.textareas[j].name != form.inputs[i].name
    ensures form.inputs[i].name in FormPayload(form)
    ensures FormPayload(form)[form.inputs[i].name] == InputEntry(form.inputs[i]).1
  {
    CollectLast(form.inputs, InputSubmitted, InputEntry, i);
    CollectKeys(form.selects, SelectSubmitted, SelectEntry, form.inputs[i].name);
    CollectKeys(form.textareas, TextareaSubmitted, TextareaEntry, form.inputs[i].name);
  }

  // ---------------------------------------------------------------- guess_year_month_field_names

  /** `o.isdigit() and len(o) == 4` on the option text. */
  predicate YearOption(o: SelectOption) {
    IsDigits(o.caption) && |o.caption| == 4
  }

  /** `o.isdigit() and 1 <= int(o) <= 12` on the option text. */
  predicate MonthOption(o: SelectOption) {
    IsDigits(o.caption) && 1 <= DigitsValue(o.caption) <= 12
  }

  /** How many options satisfy `p`: the `sum(1 for o in opts if ...)`. */
  function CountWhere(opts: seq<SelectOption>, p: SelectOption -> bool): nat {
    if opts == [] then 0
    else CountWhere(opts[..|opts| - 1], p) + (if p(opts[|opts| - 1]) then 1 else 0)
  }

  /** A named select with at least five year-like options. */
  predicate YearSelect(sel: Select) {
    sel.name != "" && CountWhere(sel.options, YearOption) >= 5
  }

  /** A named select with at least five month-like options. */
  predicate MonthSelect(sel: Select) {
    sel.name != "" && CountWhere(sel.options, MonthOption) >= 5
  }

  /** The name of the last select satisfying `p`, or `default`: each match overwrites the field. */
  function LastNamed(sels: seq<Select>, p: Select -> bool, default: string): string {
    if sels == [] then default
    else if p(sels[|sels| - 1]) then sels[|sels| - 1].name
    else LastNamed(sels[..|sels| - 1], p, default)
  }

  /** The field keeps `default` when no select matches, and otherwise names the last select that does. */
  lemma {:induction false} LastNamedSpec(sels: seq<Select>, p: Select -> bool, default: string)
    ensures (forall i :: 0 <= i < |sels| ==> !p(sels[i])) ==> LastNamed(sels, p, default) == default
    ensures (exists i :: 0 <= i < |sels| && p(sels[i])) ==>
              exists i :: 0 <= i < |sels| && p(sels[i]) && sels[i].name == LastNamed(sels, p, default)
                          && forall j :: i < j < |sels| ==> !p(sels[j])
  {
    if sels != [] && !p(sels[|sels| - 1]) {
      var init := sels[..|sels| - 1];
      LastNamedSpec(init, p, default);
      assert forall j :: 0 <= j < |init| ==> init[j] == sels[j];
      if exists i :: 0 <= i < |sels| && p(sels[i]) {
        var i :| 0 <= i < |sels| && p(sels[i]);
        assert p(init[i]);
      }
    }
  }

  function GuessedFieldNames(form: Form): (string, string) {
    (LastNamed(form.selects, YearSelect, "year"), LastNamed(form.selects, MonthSelect, "month"))
  }

  lemma LastNamedStep(sels: seq<Select>, i: nat, p: Select -> bool, default: string)
    requires i < |sels|
    ensures LastNamed(sels[..i + 1], p, default)
            == if p(sels[i]) then sels[i].name else LastNamed(sels[..i], p, default)
  {
    assert sels[..i + 1][..i] == sels[..i];
  }

  lemma CountStep(opts: seq<SelectOption>, k: nat, p: SelectOption -> bool)
    requires k < |opts|
    ensures CountWhere(opts[..k + 1], p) == CountWhere(opts[..k], p) + if p(opts[k]) then 1 else 0
  {
    assert opts[..k + 1][..k] == opts[..k];
  }

  /** The two `sum(...)` counts of `guess_year_month_field_names` for one select, in one pass. */
  method CountYearMonthOptions(opts: seq<SelectOption>) returns (yearish: nat, monthish: nat)
    ensures yearish == CountWhere(opts, YearOption) && monthish == CountWhere(opts, MonthOption)
  {
    yearish, monthish := 0, 0;
    for k := 0 to |opts|
      invariant yearish == CountWhere(opts[..k], YearOption)
      invariant monthish == CountWhere(opts[..k], MonthOption)
    {
      CountStep(opts, k, YearOption);
      CountStep(opts, k, MonthOption);
      var o := opts[k].caption;
      if IsDigits(o) && |o| == 4 {
        yearish := yearish + 1;
      }
      if IsDigits(o) && 1 <= DigitsValue(o) <= 12 {
        monthish := monthish + 1;
      }
    }
    assert opts[..|opts|] == opts;
  }

  /** `guess_year_month_field_names`: one pass over the selects, counting option texts. */
  method GuessYearMonthFieldNames(form: Form) returns (yearField: string, monthField: string)
    ensures (yearField, monthField) == GuessedFieldNames(form)
  {
    yearField := "year";
    monthField := "month";
    for i := 0 to |form.selects|
      invariant yearField == LastNamed(form.selects[..i], YearSelect, "year")
      invariant monthField == LastNamed(form.selects[..i], MonthSelect, "month")
    {
      var sel := form.selects[i];
      LastNamedStep(form.selects, i, YearSelect, "year");
      LastNamedStep(form.selects, i, MonthSelect, "month");
      if sel.name == "" {
        continue;
      }
      var yearish, monthish := CountYearMonthOptions(sel.options);
      if yearish >= 5 {
        yearField := sel.name;
      }
      if monthish >= 5 {
        monthField := sel.name;
      }
    }
    assert form.selects[..|form.selects|] == form.selects;
  }

  /** Options whose texts are the decimal numbers `first`, ..., `first + count - 1`. */
  function NumberedOptions(first: nat, count: nat): (r: seq<SelectOption>)
    ensures |r| == count
  {
    if count == 0 then []
    else NumberedOptions(first, count - 1) + [SelectOption(None, NatToString(first + count - 1), false)]
  }

  /** Four-digit numbers are year-like and never month-like. */
  lemma {:induction false} YearNumbersCount(first: nat, count: nat)
    requires 1000 <= first && first + count <= 10000
    ensures CountWhere(NumberedOptions(first, count), YearOption) == count
    ensures CountWhere(NumberedOptions(first, count), MonthOption) == 0
  {
    if count > 0 {
      var opts := NumberedOptions(first, count);
      assert opts[..count - 1] == NumberedOptions(first, count - 1);
      YearNumbersCount(first, count - 1);
      var n := first + count - 1;
      NatToStringLength(n, 4);
      NatToStringLength(n, 3);
      NatToStringValue(n);
      assert Pow10(3) == 1000 && Pow10(4) == 10000 by {
        assert Pow10(1) == 10;
        assert Pow10(2) == 100;
      }
    }
  }

  /** The numbers 1 to 12 are month-like and never year-like. */
  lemma {:induction false} MonthNumbersCount(first: nat, count: nat)
    requires 1 <= first && first + count <= 13
    ensures CountWhere(NumberedOptions(first, count), MonthOption) == count
    ensures CountWhere(NumberedOptions(first, count), YearOption) == 0
  {
    if count > 0 {
      var opts := NumberedOptions(first, count);
      assert opts[..count - 1] == NumberedOptions(first, count - 1);
      MonthNumbersCount(first, count - 1);
      var n := first + count - 1;
      NatToStringLength(n, 2);
      NatToStringValue(n);
      assert Pow10(2) == 100 by {
        assert Pow10(1) == 10;
      }
    }
  }

  /** A select of years and a select of months are recognised whatever they are called. */
  lemma GuessFromOptionTexts(yearName: string, monthName: string, inputs: seq<Input>)
    requires yearName != "" && monthName != ""
    ensures GuessedFieldNames(Form(None, "", inputs,
                                   [Select(yearName, NumberedOptions(2000, 10)), Select(monthName, NumberedOptions(1, 12))],
                                   [])) == (yearName, monthName)
  {
    YearNumbersCount(2000, 10);
    MonthNumbersCount(1, 12);
    var sels := [Select(yearName, NumberedOptions(2000, 10)), Select(monthName, NumberedOptions(1, 12))];
    assert sels[..1] == [sels[0]];
    assert YearSelect(sels[0]) && !YearSelect(sels[1]) && MonthSelect(sels[1]);
    assert LastNamed(sels, YearSelect, "year") == LastNamed([sels[0]], YearSelect, "year") == yearName;
  }

  /** Four year-like options are not enough: the default name stays. */
  lemma TooFewYearsKeepsDefault(name: string)
    ensures GuessedFieldNames(Form(None, "", [], [Select(name, NumberedOptions(2000, 4))], [])) == ("year", "month")
  {
    YearNumbersCount(2000, 4);
    var sels := [Select(name, NumberedOptions(2000, 4))];
    assert !YearSelect(sels[0]) && !MonthSelect(sels[0]);
    assert sels[..|sels| - 1] == [];
    assert LastNamed(sels, YearSelect, "year") == LastNamed([], YearSelect, "year");
    assert LastNamed(sels, MonthSelect, "month") == LastNamed([], MonthSelect, "month");
  }

  // ---------------------------------------------------------------- force_output_format_xml

  /** `"xml" in (s or "").lower()`. */
  predicate MentionsXml(s: string) {
    Contains(Lower(s), "xml")
  }

  /** `o.get("value", "")`: an absent value attribute reads as "". */
  function FormatValue(o: SelectOption): string {
    o.value.GetOr("")
  }

  /** An option whose value or text mentions XML. */
  predicate XmlOption(o: SelectOption) {
    MentionsXml(FormatValue(o)) || MentionsXml(o.caption)
  }

  /** What the payload receives for a matching option: its value, or its text when the value is "". */
  function XmlSetting(o: SelectOption): string {
    if FormatValue(o) != "" then FormatValue(o) else o.caption
  }

  /** A named select with an XML-looking option. */
  predicate SelectForcible(sel: Select) {
    sel.name != "" && FirstIndex(sel.options, XmlOption).Some?
  }

  /** The select loop: the first forcible select and its first XML-looking option. */
  function SelectXmlTarget(sels: seq<Select>): Option<(string, string)> {
    match FirstIndex(sels, SelectForcible)
    case Some(i) => Some((sels[i].name, XmlSetting(sels[i].options[FirstIndex(sels[i].options, XmlOption).value])))
    case None => None
  }

  /** `form.find_all("input", {"type": "radio"})` with a name: an exact, case-sensitive match on the type. */
  predicate RadioInput(inp: Input) {
    inp.inputType == "radio" && inp.name != ""
  }

  /** The `radio_groups` dict in insertion order: each name with its values in document order. */
  type RadioGroups = seq<(string, seq<string>)>

  /** Where `name` sits in the groups, if it is there. */
  function GroupIndex(groups: RadioGroups, name: string): (r: Option<nat>)
    ensures r.Some? ==> r.value < |groups| && groups[r.value].0 == name
    ensures r.None? ==> forall g :: 0 <= g < |groups| ==> groups[g].0 != name
  {
    if groups == [] then None
    else if groups[0].0 == name then Some(0)
    else
      match GroupIndex(groups[1..], name)
      case Some(g) => Some(g + 1)
      case None => None
  }

  /** `radio_groups.setdefault(name, []).append(value)`. */
  function AddRadio(groups: RadioGroups, name: string, value: string): RadioGroups {
    match GroupIndex(groups, name)
    case Some(g) => groups[g := (name, groups[g].1 + [value])]
    case None => groups + [(name, [value])]
  }

  function GroupRadios(inputs: seq<Input>): RadioGroups {
    if inputs == [] then []
    else
      var last := inputs[|inputs| - 1];
      var groups := GroupRadios(inputs[..|inputs| - 1]);
      if RadioInput(last) then AddRadio(groups, last.name, last.value) else groups
  }

  predicate GroupForcible(group: (string, seq<string>)) {
    FirstIndex(group.1, MentionsXml).Some?
  }

  /** The radio loop: the first group, in dict order, with a value mentioning XML, and its first such value. */
  function RadioXmlTarget(groups: RadioGroups): Option<(string, string)> {
    match FirstIndex(groups, GroupForcible)
    case Some(g) => Some((groups[g].0, groups[g].1[FirstIndex(groups[g].1, MentionsXml).value]))
    case None => None
  }

  /** Whether `force_output_format_xml` changes the payload, and the payload afterwards. */
  function ForcedXml(form: Form, payload: map<string, string>): (bool, map<string, string>) {
    match SelectXmlTarget(form.selects)
    case Some((name, value)) => (true, payload[name := value])
    case None =>
      match RadioXmlTarget(GroupRadios(form.inputs))
      case Some((name, value)) => (true, payload[name := value])
      case None => (false, payload)
  }

  lemma GroupRadiosStep(inputs: seq<Input>, i: nat)
    requires i < |inputs|
    ensures GroupRadios(inputs[..i + 1])
            == if RadioInput(inputs[i]) then AddRadio(GroupRadios(inputs[..i]), inputs[i].name, inputs[i].value)
               else GroupRadios(inputs[..i])
  {
    assert inputs[..i + 1][..i] == inputs[..i];
  }

  /**
   * `force_output_format_xml`: returns at the first select option, then
   * at the first radio value, that mentions XML; `payload` is passed and
   * returned by value.
   */
  method ForceOutputFormatXml(form: Form, payload: map<string, string>) returns (changed: bool, result: map<string, string>)
    ensures (changed, result) == ForcedXml(form, payload)
  {
    for i := 0 to |form.selects|
      invariant forall j :: 0 <= j < i ==> !SelectForcible(form.selects[j])
    {
      var sel := form.selects[i];
      if sel.name == "" {
        continue;
      }
      for k := 0 to |sel.options|
        invariant forall j :: 0 <= j < k ==> !XmlOption(sel.options[j])
      {
        var value := sel.options[k].value.GetOr("");
        var caption := sel.options[k].caption;
        if Contains(Lower(value), "xml") || Contains(Lower(caption), "xml") {
          FirstIndexAt(sel.options, XmlOption, k);
          FirstIndexAt(form.selects, SelectForcible, i);
          return true, payload[sel.name := if value != "" then value else caption];
        }
      }
    }
    assert SelectXmlTarget(form.selects) == None;
    var groups: RadioGroups := [];
    for i := 0 to |form.inputs|
      invariant groups == GroupRadios(form.inputs[..i])
    {
      GroupRadiosStep(form.inputs, i);
      var inp := form.inputs[i];
      if inp.inputType == "radio" && inp.name != "" {
        var g := GroupIndex(groups, inp.name);
        if g.Some? {
          groups := groups[g.value := (inp.name, groups[g.value].1 + [inp.value])];
        } else {
          groups := groups + [(inp.name, [inp.value])];
        }
      }
    }
    assert form.inputs[..|form.inputs|] == form.inputs;
    for g := 0 to |groups|
      invariant forall j :: 0 <= j < g ==> !GroupForcible(groups[j])
    {
      var values := groups[g].1;
      for k := 0 to |values|
        invariant forall j :: 0 <= j < k ==> !MentionsXml(values[j])
      {
        if Contains(Lower(values[k]), "xml") {
          FirstIndexAt(values, MentionsXml, k);
          FirstIndexAt(groups, GroupForcible, g);
          return true, payload[groups[g].0 := values[k]];
        }
      }
    }
    return false, payload;
  }

  /** A radio input of the given name. */
  predicate RadioNamed(inp: Input, name: string) {
    RadioInput(inp) && inp.name == name
  }

  /** The values of the radios called `name`, in document order. */
  function RadioValues(inputs: seq<Input>, name: string): seq<string> {
    if inputs == [] then []
    else
      var last := inputs[|inputs| - 1];
      RadioValues(inputs[..|inputs| - 1], name) + if RadioNamed(last, name) then [last.value] else []
  }

  /** The distinct radio names, in the order their first radio appears. */
  function RadioNames(inputs: seq<Input>): seq<string> {
    if inputs == [] then []
    else
      var last := inputs[|inputs| - 1];
      var names := RadioNames(inputs[..|inputs| - 1]);
      names + if RadioInput(last) && last.name !in names then [last.name] else []
  }

  /** A name is listed exactly when some radio carries it. */
  lemma {:induction false} RadioNamesMembers(inputs: seq<Input>, name: string)
    ensures name in RadioNames(inputs) <==> exists i :: 0 <= i < |inputs| && RadioNamed(inputs[i], name)
  {
    if inputs != [] {
      var init := inputs[..|inputs| - 1];
      RadioNamesMembers(init, name);
      assert forall i :: 0 <= i < |init| ==> init[i] == inputs[i];
    }
  }

  /** No name is listed twice. */
  lemma {:induction false} RadioNamesDistinct(inputs: seq<Input>)
    ensures forall g, h :: 0 <= g < h < |RadioNames(inputs)| ==> RadioNames(inputs)[g] != RadioNames(inputs)[h]
  {
    if inputs != [] {
      RadioNamesDistinct(inputs[..|inputs| - 1]);
    }
  }

  /** Reading further into the document only appends names: the list is in first-appearance order. */
  lemma {:induction false} RadioNamesGrow(inputs: seq<Input>, i: nat)
    requires i <= |inputs|
    ensures RadioNames(inputs[..i]) <= RadioNames(inputs)
    decreases |inputs| - i
  {
    if i < |inputs| {
      RadioNamesGrow(inputs, i + 1);
      assert inputs[..i + 1][..i] == inputs[..i];
    } else {
      assert inputs[..i] == inputs;
    }
  }

  lemma {:induction false} NoRadioNoValues(inputs: seq<Input>, name: string)
    requires forall i :: 0 <= i < |inputs| ==> !RadioNamed(inputs[i], name)
    ensures RadioValues(inputs, name) == []
  {
    if inputs != [] {
      NoRadioNoValues(inputs[..|inputs| - 1], name);
    }
  }

  /** Every radio's value is among the values of its name, and nothing else is. */
  lemma {:induction false} RadioValuesMembers(inputs: seq<Input>, name: string, v: string)
    ensures v in RadioValues(inputs, name) <==> exists i :: 0 <= i < |inputs| && RadioNamed(inputs[i], name) && inputs[i].value == v
  {
    if inputs != [] {
      var init := inputs[..|inputs| - 1];
      RadioValuesMembers(init, name, v);
      assert forall i :: 0 <= i < |init| ==> init[i] == inputs[i];
    }
  }

  /** Groups that pair each listed name with its values. */
  ghost predicate Paired(inputs: seq<Input>, groups: RadioGroups) {
    |groups| == |RadioNames(inputs)|
    && forall g :: 0 <= g < |groups| ==> groups[g] == (RadioNames(inputs)[g], RadioValues(inputs, RadioNames(inputs)[g]))
  }

  /** A non-radio input leaves the groups and their reference alone. */
  lemma PairedSkip(init: seq<Input>, x: Input)
    requires !RadioInput(x)
    requires Paired(init, GroupRadios(init))
    ensures Paired(init + [x], GroupRadios(init + [x]))
  {
    var inputs := init + [x];
    assert inputs[..|inputs| - 1] == init;
    var names := RadioNames(init);
    assert GroupRadios(inputs) == GroupRadios(init) && RadioNames(inputs) == names;
    forall g | 0 <= g < |names|
      ensures RadioValues(inputs, names[g]) == RadioValues(init, names[g])
    {
    }
  }

  /** A radio of a listed name extends that name's group only. */
  lemma PairedAppend(init: seq<Input>, x: Input)
    requires RadioInput(x) && x.name in RadioNames(init)
    requires Paired(init, GroupRadios(init))
    ensures Paired(init + [x], GroupRadios(init + [x]))
  {
    var inputs := init + [x];
    assert inputs[..|inputs| - 1] == init;
    var groups := GroupRadios(init);
    var names := RadioNames(init);
    RadioNamesDistinct(init);
    var g0 := GroupIndex(groups, x.name).value;
    assert names[g0] == x.name;
    var next := groups[g0 := (x.name, groups[g0].1 + [x.value])];
    assert GroupRadios(inputs) == next;
    assert RadioNames(inputs) == names;
    forall g | 0 <= g < |groups|
      ensures next[g] == (names[g], RadioValues(inputs, names[g]))
    {
      if g == g0 {
        assert RadioValues(inputs, names[g]) == RadioValues(init, names[g]) + [x.value];
      } else {
        assert names[g] != names[g0];
        assert RadioValues(inputs, names[g]) == RadioValues(init, names[g]);
      }
    }
  }

  /** A radio of a new name opens a group at the end. */
  lemma PairedOpen(init: seq<Input>, x: Input)
    requires RadioInput(x) && x.name !in RadioNames(init)
    requires Paired(init, GroupRadios(init))
    ensures Paired(init + [x], GroupRadios(init + [x]))
  {
    var inputs := init + [x];
    assert inputs[..|inputs| - 1] == init;
    var groups := GroupRadios(init);
    var names := RadioNames(init);
    assert GroupIndex(groups, x.name).None?;
    var next := groups + [(x.name, [x.value])];
    assert GroupRadios(inputs) == next;
    assert RadioNames(inputs) == names + [x.name];
    RadioNamesMembers(init, x.name);
    NoRadioNoValues(init, x.name);
    assert RadioValues(inputs, x.name) == [x.value];
    forall g | 0 <= g < |groups|
      ensures next[g] == (names[g], RadioValues(inputs, names[g]))
    {
      assert RadioValues(inputs, names[g]) == RadioValues(init, names[g]);
    }
  }

  /**
   * The grouping loop yields one group per radio name, in the order each
   * name first appears, holding that name's values in document order.
   */
  lemma {:induction false} GroupRadiosPaired(inputs: seq<Input>)
    ensures Paired(inputs, GroupRadios(inputs))
  {
    if inputs != [] {
      var init := inputs[..|inputs| - 1];
      var x := inputs[|inputs| - 1];
      GroupRadiosPaired(init);
      assert init + [x] == inputs;
      if !RadioInput(x) {
        PairedSkip(init, x);
      } else if x.name in RadioNames(init) {
        PairedAppend(init, x);
      } else {
        PairedOpen(init, x);
      }
    }
  }

  /** A name some radio of which has a value mentioning XML. */
  predicate NameHasXml(inputs: seq<Input>, name: string) {
    FirstIndex(RadioValues(inputs, name), MentionsXml).Some?
  }

  /**
   * The radio search finds something exactly when some radio's value
   * mentions XML. It then takes the first name, in first-appearance
   * order, having such a value, and that name's first such value: a
   * later name's XML radio loses even when it comes earlier in the page.
   */
  lemma RadioXmlTargetRule(inputs: seq<Input>)
    ensures RadioXmlTarget(GroupRadios(inputs)).None? <==>
              forall i :: 0 <= i < |inputs| && RadioInput(inputs[i]) ==> !MentionsXml(inputs[i].value)
    ensures RadioXmlTarget(GroupRadios(inputs)).Some? ==>
              var names := RadioNames(inputs);
              exists g :: 0 <= g < |names| && NameHasXml(inputs, names[g])
                          && (forall h :: 0 <= h < g ==> !NameHasXml(inputs, names[h]))
                          && RadioXmlTarget(GroupRadios(inputs)).value
                             == (names[g], RadioValues(inputs, names[g])[FirstIndex(RadioValues(inputs, names[g]), MentionsXml).value])
  {
    var groups := GroupRadios(inputs);
    var names := RadioNames(inputs);
    GroupRadiosPaired(inputs);
    assert forall g :: 0 <= g < |groups| ==> (GroupForcible(groups[g]) <==> NameHasXml(inputs, names[g]));
    match FirstIndex(groups, GroupForcible)
    case Some(g) =>
      var vs := groups[g].1;
      var k := FirstIndex(vs, MentionsXml).value;
      RadioValuesMembers(inputs, names[g], vs[k]);
      var i :| 0 <= i < |inputs| && RadioNamed(inputs[i], names[g]) && inputs[i].value == vs[k];
      assert RadioInput(inputs[i]) && MentionsXml(inputs[i].value);
    case None =>
      forall i | 0 <= i < |inputs| && RadioInput(inputs[i])
        ensures !MentionsXml(inputs[i].value)
      {
        var name := inputs[i].name;
        RadioNamesMembers(inputs, name);
        var g :| 0 <= g < |names| && names[g] == name;
        RadioValuesMembers(inputs, name, inputs[i].value);
        var vs := RadioValues(inputs, name);
        var k :| 0 <= k < |vs| && vs[k] == inputs[i].value;
        assert !GroupForcible(groups[g]);
      }
  }

  /** The first forcible select decides, set to its first XML-looking option; radios are not consulted. */
  lemma SelectDecides(form: Form, payload: map<string, string>, i: nat, k: nat)
    requires i < |form.selects| && SelectForcible(form.selects[i])
    requires forall j :: 0 <= j < i ==> !SelectForcible(form.selects[j])
    requires k < |form.selects[i].options| && XmlOption(form.selects[i].options[k])
    requires forall j :: 0 <= j < k ==> !XmlOption(form.selects[i].options[j])
    ensures ForcedXml(form, payload) == (true, payload[form.selects[i].name := XmlSetting(form.selects[i].options[k])])
  {
    FirstIndexAt(form.selects, SelectForcible, i);
    FirstIndexAt(form.selects[i].options, XmlOption, k);
  }

  /** Selects after the first forcible one play no part. */
  lemma LaterSelectsIgnored(first: seq<Select>, rest: seq<Select>, i: nat)
    requires i < |first| && SelectForcible(first[i])
    ensures SelectXmlTarget(first + rest) == SelectXmlTarget(first)
  {
    var j := FirstIndex(first, SelectForcible).value;
    assert (first + rest)[j] == first[j];
    FirstIndexAt(first + rest, SelectForcible, j);
  }

  /** Without a forcible select, the radios decide as the radio search does. */
  lemma RadiosDecide(form: Form, payload: map<string, string>)
    requires forall i :: 0 <= i < |form.selects| ==> !SelectForcible(form.selects[i])
    ensures ForcedXml(form, payload).0 <==>
              exists i :: 0 <= i < |form.inputs| && RadioInput(form.inputs[i]) && MentionsXml(form.inputs[i].value)
    ensures ForcedXml(form, payload).0 ==>
              var names := RadioNames(form.inputs);
              exists g :: 0 <= g < |names| && NameHasXml(form.inputs, names[g])
                          && (forall h :: 0 <= h < g ==> !NameHasXml(form.inputs, names[h]))
                          && ForcedXml(form, payload).1
                             == payload[names[g] := RadioValues(form.inputs, names[g])[FirstIndex(RadioValues(form.inputs, names[g]), MentionsXml).value]]
  {
    RadioXmlTargetRule(form.inputs);
  }

  /**
   * The coercion changes something exactly when a named select has an
   * option whose value or text mentions XML, or a radio's value does; it
   * then sets one named field and leaves every other entry alone,
   * otherwise the payload is untouched.
   */
  lemma ForcedXmlChangesOneField(form: Form, payload: map<string, string>)
    ensures ForcedXml(form, payload).0 <==>
              (exists i :: 0 <= i < |form.selects| && SelectForcible(form.selects[i]))
              || (exists i :: 0 <= i < |form.inputs| && RadioInput(form.inputs[i]) && MentionsXml(form.inputs[i].value))
    ensures !ForcedXml(form, payload).0 ==> ForcedXml(form, payload).1 == payload
    ensures ForcedXml(form, payload).0 ==>
              exists name :: name != "" && name in ForcedXml(form, payload).1
                             && ForcedXml(form, payload).1 == payload[name := ForcedXml(form, payload).1[name]]
  {
    var result := ForcedXml(form, payload).1;
    match FirstIndex(form.selects, SelectForcible)
    case Some(i) =>
      var name := form.selects[i].name;
      assert result == payload[name := result[name]];
    case None =>
      RadioXmlTargetRule(form.inputs);
      GroupRadiosPaired(form.inputs);
      match RadioXmlTarget(GroupRadios(form.inputs))
      case Some((name, value)) =>
        var names := RadioNames(form.inputs);
        var g :| 0 <= g < |names| && names[g] == name;
        RadioNamesMembers(form.inputs, name);
        var i :| 0 <= i < |form.inputs| && RadioNamed(form.inputs[i], name);
        assert result == payload[name := result[name]];
      case None =>
  }

  /** "html" and "1" do not mention XML; "XML" and "xml-a" do. */
  lemma MentionsXmlSamples()
    ensures !MentionsXml("html") && !MentionsXml("HTML") && !MentionsXml("1")
    ensures MentionsXml("XML") && MentionsXml("xml-a")
  {
    assert Lower("HTML") == "html" && Lower("html") == "html" && Lower("1") == "1";
    assert "html"[1..] == "tml" && "tml"[1..] == "ml" && "ml"[1..] == "l" && "l"[1..] == "";
    assert "html"[..3] != "xml" && "tml"[..3] != "xml";
    assert !Contains("html", "xml");
    assert Lower("XML") == "xml" && Lower("xml-a") == "xml-a";
    assert StartsWith("xml", "xml") && StartsWith("xml-a", "xml");
  }

  /** A format select offering HTML as "1" and XML as "2". */
  function HtmlXmlSelect(): Select {
    Select("format", [SelectOption(Some("1"), "HTML", false), SelectOption(Some("2"), "XML", false)])
  }

  lemma HtmlXmlOptions()
    ensures !XmlOption(HtmlXmlSelect().options[0]) && XmlOption(HtmlXmlSelect().options[1])
    ensures XmlSetting(HtmlXmlSelect().options[1]) == "2"
  {
    MentionsXmlSamples();
  }

  /** Such a select is set to "2", the value of the XML option. */
  lemma XmlOptionByCaption(payload: map<string, string>)
    ensures ForcedXml(Form(None, "", [], [HtmlXmlSelect()], []), payload) == (true, payload["format" := "2"])
  {
    HtmlXmlOptions();
    FirstIndexAt(HtmlXmlSelect().options, XmlOption, 1);
    SelectDecides(Form(None, "", [], [HtmlXmlSelect()], []), payload, 0, 1);
  }

  /** Two radio groups: "fmt" with "html" and "xml-a", and between them "alt" with "xml-b". */
  function InterleavedRadios(): seq<Input> {
    [Input("fmt", "radio", "html", false), Input("alt", "radio", "xml-b", false), Input("fmt", "radio", "xml-a", false)]
  }

  /** The groups keep the order in which their names first appear. */
  lemma InterleavedRadioGroups()
    ensures GroupRadios(InterleavedRadios()) == [("fmt", ["html", "xml-a"]), ("alt", ["xml-b"])]
  {
    var inputs := InterleavedRadios();
    assert inputs[..2][..1] == inputs[..1];
    assert inputs[..1][..0] == [];
    assert GroupRadios(inputs[..1]) == [("fmt", ["html"])];
    assert GroupRadios(inputs[..2]) == [("fmt", ["html"]), ("alt", ["xml-b"])];
    assert inputs[..|inputs| - 1] == inputs[..2];
    var two := [("fmt", ["html"]), ("alt", ["xml-b"])];
    assert GroupIndex(two, "fmt") == Some(0);
    assert RadioInput(inputs[2]);
    assert GroupRadios(inputs) == AddRadio(two, "fmt", "xml-a");
    assert ["html"] + ["xml-a"] == ["html", "xml-a"];
  }

  /** Radios are searched name by name: the name seen first wins even if another name's XML radio comes earlier. */
  lemma RadioGroupsSearchedByName(payload: map<string, string>)
    ensures ForcedXml(Form(None, "", InterleavedRadios(), [], []), payload) == (true, payload["fmt" := "xml-a"])
  {
    InterleavedRadioGroups();
    var groups := [("fmt", ["html", "xml-a"]), ("alt", ["xml-b"])];
    MentionsXmlSamples();
    FirstIndexAt(groups[0].1, MentionsXml, 1);
    FirstIndexAt(groups, GroupForcible, 0);
  }
}
