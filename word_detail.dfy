/**
 * The herb detail page: the category colour, the lookup of the route's herb id in the
 * page's built-in table of records, the loading and error state around that lookup, and
 * which view the state renders.
 *
 * Both lookups index a JavaScript object literal, whose keys include the members every
 * object inherits (`constructor`, `toString`, ...). `PlainObjectGet` models that lookup;
 * the corrected lookups consult only the literal's own keys.
 */
module WordDetail {
  import opened Wrappers

  // ---------------------------------------------------------------- object lookup

  /** The property names every plain object inherits from `Object.prototype`. All of them
      are truthy: they are functions, or (`__proto__`) an object. */
  const InheritedKeys: set<string> := {
    "constructor", "hasOwnProperty", "isPrototypeOf", "propertyIsEnumerable",
    "toLocaleString", "toString", "valueOf", "__proto__",
    "__defineGetter__", "__defineSetter__", "__lookupGetter__", "__lookupSetter__"}

  /** The outcome of `obj[key]` on an object literal. */
  datatype Found<T> = Own(value: T) | Inherited(member: string) | Missing

  function PlainObjectGet<T>(obj: map<string, T>, key: string): (r: Found<T>)
    ensures key in obj ==> r == Own(obj[key])
    ensures key !in obj && key in InheritedKeys ==> r == Inherited(key)
    ensures key !in obj && key !in InheritedKeys ==> r == Missing
  {
    if key in obj then Own(obj[key]) else if key in InheritedKeys then Inherited(key) else Missing
  }

  // ---------------------------------------------------------------- category colour

  const DefaultColor: string := "default"

  /** The colour table of `getKategoriýaColor`. */
  const CategoryColors: map<string, string> := map[
    "Dermanlyk ösümlik" := "green",
    "Miweli ösümlik" := "orange",
    "Aromaterapi ösümlik" := "purple",
    "Gök önümler" := "blue"]

  /** A JavaScript value as far as the colour is concerned: a string, or an inherited
      member (a function). */
  datatype JsValue = Str(s: string) | Member(name: string)

  /** `colors[kategoriýa] || 'default'`, as written. */
  function CategoryColorAsWritten(kategoriya: string): JsValue {
    match PlainObjectGet(CategoryColors, kategoriya)
    case Own(c) => if c != "" then Str(c) else Str(DefaultColor)
    case Inherited(m) => Member(m)
    case Missing => Str(DefaultColor)
  }

  /** The category `toString` is given the inherited `toString` function as its colour,
      not `'default'`. */
  lemma CategoryColorAsWrittenInherited()
    ensures "toString" !in CategoryColors
    ensures CategoryColorAsWritten("toString") == Member("toString")
    ensures CategoryColorAsWritten("toString") != Str(DefaultColor)
  {
    assert "toString" in InheritedKeys;
  }

  /** The colour of a category: the table's colour for the four categories it lists,
      `'default'` for every other string. */
  function CategoryColor(kategoriya: string): (c: string)
    ensures kategoriya == "Dermanlyk ösümlik" ==> c == "green"
    ensures kategoriya == "Miweli ösümlik" ==> c == "orange"
    ensures kategoriya == "Aromaterapi ösümlik" ==> c == "purple"
    ensures kategoriya == "Gök önümler" ==> c == "blue"
    ensures kategoriya !in CategoryColors ==> c == DefaultColor
  {
    if kategoriya in CategoryColors then CategoryColors[kategoriya] else DefaultColor
  }

  /** The corrected colour agrees with the code as written on every category that is not
      an inherited member name. */
  lemma CategoryColorAgrees(kategoriya: string)
    requires kategoriya !in InheritedKeys
    ensures CategoryColorAsWritten(kategoriya) == Str(CategoryColor(kategoriya))
  {
    if kategoriya in CategoryColors {
      assert CategoryColors[kategoriya] != "";
    }
  }

  // ---------------------------------------------------------------- records

  /** A record of the detail table. */
  datatype DetailRecord = DetailRecord(
    id: string,
    ady: string,
    hasiyeti: string,
    yasayysAyratynlygy: string,
    yayraway: string,
    tegigy: string,
    gory: string,
    cigMaly: string,
    himikiDuzumi: string,
    peydalyNys: string,
    suraty: string,
    kategoriya: string,
    extraInfo: Option<seq<string>>,
    usageMethods: Option<seq<string>>,
    warning: Option<string>)

  const NotFoundMessage: string := "Ösümlik tapylmady"
  const LoadFailedMessage: string := "Maglumat ýükläp bolmady"
  const DefaultNotFoundDescription: string := "Talap edilýän ösümlik tapylmady."

  /** What the lookup of an id finds. */
  datatype Lookup = FoundRecord(record: DetailRecord) | FoundMember(name: string) | NotFound

  /** `mockOsumlukMaglumatlary[wordId]` as written: an inherited member name finds a
      (truthy) function. */
  function LookupAsWritten(table: map<string, DetailRecord>, wordId: string): Lookup {
    match PlainObjectGet(table, wordId)
    case Own(r) => FoundRecord(r)
    case Inherited(m) => FoundMember(m)
    case Missing => NotFound
  }

  /** The id `constructor` finds something in any table that lacks it, so no error is set
      and the not-found view is not shown. */
  lemma LookupAsWrittenFindsMember(table: map<string, DetailRecord>)
    requires "constructor" !in table
    ensures LookupAsWritten(table, "constructor") == FoundMember("constructor")
    ensures !LookupAsWritten(table, "constructor").NotFound?
  {
    assert "constructor" in InheritedKeys;
  }

  /** The lookup by the table's own ids only: a record for an id of the table, nothing
      for every other id. */
  function LookupRecord(table: map<string, DetailRecord>, wordId: string): (r: Lookup)
    ensures r.FoundRecord? <==> wordId in table
    ensures r.FoundRecord? ==> r.record == table[wordId]
    ensures !r.FoundMember?
  {
    if wordId in table then FoundRecord(table[wordId]) else NotFound
  }

  /** The two lookups differ only on inherited member names. */
  lemma LookupAgrees(table: map<string, DetailRecord>, wordId: string)
    ensures wordId !in InheritedKeys || wordId in table ==> LookupAsWritten(table, wordId) == LookupRecord(table, wordId)
    ensures wordId in InheritedKeys && wordId !in table ==> LookupAsWritten(table, wordId) == FoundMember(wordId)
  {
  }

  // ---------------------------------------------------------------- the view

  /** What the page renders. */
  datatype DetailView =
    | Spinner
    | NotFoundView(description: string)
    | Detail(record: DetailRecord, showExtraInfo: bool, showUsage: bool, showWarning: bool)

  predicate ListShown(l: Option<seq<string>>) {
    l.Some? && |l.value| > 0
  }

  /** The error is truthy: set, and not the empty string. */
  predicate HasError(error: Option<string>) {
    error.Some? && error.value != ""
  }

  function View(record: Option<DetailRecord>, loading: bool, error: Option<string>): (v: DetailView)
    ensures v.Spinner? <==> loading
    ensures v.NotFoundView? <==> !loading && (HasError(error) || record.None?)
    ensures v.NotFoundView? ==> v.description == if HasError(error) then error.value else DefaultNotFoundDescription
    ensures v.Detail? ==> v.record == record.value && !HasError(error)
    ensures v.Detail? ==> (v.showExtraInfo <==> ListShown(v.record.extraInfo))
    ensures v.Detail? ==> (v.showUsage <==> ListShown(v.record.usageMethods))
    ensures v.Detail? ==> (v.showWarning <==> v.record.warning.Some? && v.record.warning.value != "")
  {
    if loading then Spinner
    else if HasError(error) || record.None? then
      NotFoundView(if HasError(error) then error.value else DefaultNotFoundDescription)
    else
      var r := record.value;
      Detail(r, ListShown(r.extraInfo), ListShown(r.usageMethods), r.warning.Some? && r.warning.value != "")
  }

  // ---------------------------------------------------------------- the component

  class WordDetailPage {
    var record: Option<DetailRecord>
    var loading: bool
    var error: Option<string>

    /** The page starts with no record, no error, and the spinner on. */
    constructor ()
      ensures record.None? && loading && error.None?
      ensures View(record, loading, error) == Spinner
    {
      record := None;
      loading := true;
      error := None;
    }

    /** The effect's start: without an id nothing changes and nothing is looked up;
        otherwise the spinner starts and the error is cleared. */
    method Start(wordId: Option<string>) returns (looksUp: bool)
      modifies this
      ensures looksUp <==> wordId.Some? && wordId.value != ""
      ensures !looksUp ==> record == old(record) && loading == old(loading) && error == old(error)
      ensures looksUp ==> record == old(record) && loading && error.None?
    {
      if wordId.None? || wordId.value == "" {
        return false;
      }
      loading := true;
      error := None;
      looksUp := true;
    }

    /** The effect's end: a failed wait sets the load error; otherwise a record found for
        the id is shown and a missing one sets the not-found error (the previous record, if
        any, is kept). The spinner stops on every path. The lookup is the corrected
        `LookupRecord`, which finds only the table's own ids. */
    method Settle(table: map<string, DetailRecord>, wordId: string, failed: bool)
      modifies this
      ensures !loading
      ensures failed ==> record == old(record) && error == Some(LoadFailedMessage)
      ensures !failed && wordId in table ==> record == Some(table[wordId]) && error == old(error)
      ensures !failed && wordId !in table ==> record == old(record) && error == Some(NotFoundMessage)
    {
      if failed {
        error := Some(LoadFailedMessage);
      } else {
        match LookupRecord(table, wordId)
        case FoundRecord(r) => record := Some(r);
        case NotFound => error := Some(NotFoundMessage);
      }
      loading := false;
    }
  }

  /** A completed lookup of an id shows that id's record when the table has it, and the
      not-found message otherwise, whatever record an earlier lookup left behind. */
  lemma LookupOutcomeShown(table: map<string, DetailRecord>, wordId: string, stale: Option<DetailRecord>)
    ensures wordId in table ==>
      (View(Some(table[wordId]), false, None) ==
       Detail(table[wordId], ListShown(table[wordId].extraInfo), ListShown(table[wordId].usageMethods),
              table[wordId].warning.Some? && table[wordId].warning.value != ""))
    ensures View(stale, false, Some(NotFoundMessage)) == NotFoundView(NotFoundMessage)
    ensures View(stale, false, Some(LoadFailedMessage)) == NotFoundView(LoadFailedMessage)
  {
  }

  /** A page opened without an id (absent, or the falsy `''`) looks nothing up, so it keeps
      its initial state and shows the spinner for good. */
  method MissingIdKeepsSpinner(wordId: Option<string>) returns (looksUp: bool, v: DetailView)
    requires wordId.None? || wordId.value == ""
    ensures !looksUp
    ensures v == Spinner
  {
    var page := new WordDetailPage();
    looksUp := page.Start(wordId);
    v := View(page.record, page.loading, page.error);
  }
}
