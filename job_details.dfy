/** The job details page's derived text: the item and quantity totals, the
    printing line, the labels of custom fields, and the amounts shown. */
module JobDetails {
  import opened Wrappers
  import opened Seqs
  import opened Text
  import opened LineItems
  import opened Wire

  /** `(job.items || []).length`. */
  function ItemCount<T>(items: Option<seq<T>>): (r: nat)
    ensures items.None? ==> r == 0
    ensures items.Some? ==> r == |items.value|
  {
    |items.GetOr([])|
  }

  /** JavaScript truthiness of a value: `''`, `0` and a missing field are falsy. */
  predicate Falsy(v: Value) {
    v == Str("") || v == Num(0) || v == Missing
  }

  /** `v || 0`. */
  function OrZero(v: Value): (r: Value)
    ensures r.Str? || r.Num?
    ensures Falsy(v) ==> r == Num(0)
    ensures !Falsy(v) ==> r == v
  {
    if Falsy(v) then Num(0) else v
  }

  /** `String(v)` for the values a quantity total can hold. */
  function ToText(v: Value): string {
    match v
    case Str(s) => s
    case Num(n) => IntToString(n)
    case Missing => "undefined"
  }

  /** JavaScript `a + b`: numeric addition of two numbers, otherwise string
      concatenation. */
  function JsAdd(a: Value, b: Value): (r: Value)
    ensures a.Num? && b.Num? ==> r == Num(a.n + b.n)
    ensures a.Str? || b.Str? ==> r == Str(ToText(a) + ToText(b))
  {
    if a.Num? && b.Num? then Num(a.n + b.n) else Str(ToText(a) + ToText(b))
  }

  /** `items.reduce((acc, i) => acc + (i.quantity || 0), 0)` over the
      items' quantities. */
  function TotalQuantity(quantities: seq<Value>): (r: Value)
    ensures r.Str? || r.Num?
  {
    if quantities == [] then Num(0)
    else JsAdd(TotalQuantity(quantities[..|quantities| - 1]), OrZero(quantities[|quantities| - 1]))
  }

  /** A quantity is a number or a falsy value, which counts as zero. */
  predicate Numeric(v: Value) {
    v.Num? || Falsy(v)
  }

  /** The arithmetic sum of the quantities, missing ones counting as zero. */
  function Sum(quantities: seq<Value>): int {
    if quantities == [] then 0
    else
      var last := quantities[|quantities| - 1];
      Sum(quantities[..|quantities| - 1]) + (if last.Num? then last.n else 0)
  }

  /** When every quantity is a number or missing, the total is their sum. */
  lemma {:induction false} NumericTotal(quantities: seq<Value>)
    requires forall i :: 0 <= i < |quantities| ==> Numeric(quantities[i])
    ensures TotalQuantity(quantities) == Num(Sum(quantities))
  {
    if quantities != [] {
      NumericTotal(quantities[..|quantities| - 1]);
    }
  }

  /** Once a non-empty text quantity is added the total is text: later
      quantities are appended as digits rather than added. */
  lemma {:induction false} TextTotalStaysText(quantities: seq<Value>, i: nat)
    requires i < |quantities| && quantities[i].Str? && quantities[i] != Str("")
    ensures TotalQuantity(quantities).Str?
  {
    var prefix := quantities[..|quantities| - 1];
    var last := OrZero(quantities[|quantities| - 1]);
    assert TotalQuantity(quantities) == JsAdd(TotalQuantity(prefix), last);
    if i < |quantities| - 1 {
      assert prefix[i] == quantities[i];
      TextTotalStaysText(prefix, i);
    } else {
      assert last.Str?;
    }
  }

  /** `item.rate || 0` and `item.advance_amount || 0`. */
  function DisplayAmount(v: Value): (r: Value)
    ensures r == OrZero(v)
    ensures r == Num(0) <==> Falsy(v)
  {
    OrZero(v)
  }

  /** The amount the details page shows is the same before and after the
      edit form's load and submit normalisation. */
  lemma DisplayIgnoresNormalisation(v: Value)
    ensures DisplayAmount(SubmitAmount(v)) == DisplayAmount(v)
    ensures DisplayAmount(LoadAmount(v)) == DisplayAmount(v)
  {
  }

  /** `item.x && item.x.trim() !== ''`. */
  predicate Filled(s: Option<string>) {
    s.Some? && !IsBlank(s.value)
  }

  /** The "Printing:" line of an item: absent when both the printing type
      and mode are blank, the mode in parentheses after the type when both
      are filled, and otherwise whichever one is filled. */
  function PrintingLine(printingType: Option<string>, printingMode: Option<string>): (r: Option<string>)
    ensures r.Some? <==> Filled(printingType) || Filled(printingMode)
    ensures Filled(printingType) && Filled(printingMode) ==>
              r == Some(printingType.value + " (" + printingMode.value + ")")
    ensures Filled(printingType) && !Filled(printingMode) ==> r == Some(printingType.value)
    ensures !Filled(printingType) && Filled(printingMode) ==> r == Some(printingMode.value)
  {
    if !Filled(printingType) && !Filled(printingMode) then None
    else
      var typeText := if Filled(printingType) then printingType.value else "";
      var modeText := if Filled(printingMode) then printingMode.value else "";
      if Filled(printingType) && Filled(printingMode) then Some(typeText + " (" + modeText + ")")
      else
        assert typeText == "" || modeText == "";
        assert typeText + modeText == if Filled(printingType) then printingType.value else printingMode.value;
        Some(typeText + modeText)
  }

  /** Parentheses appear exactly when both parts are filled, for parts
      without parentheses of their own. */
  lemma PrintingParenthesised(printingType: Option<string>, printingMode: Option<string>)
    requires Filled(printingType) || Filled(printingMode)
    requires printingType.Some? ==> '(' !in printingType.value
    requires printingMode.Some? ==> '(' !in printingMode.value
    ensures '(' in PrintingLine(printingType, printingMode).value
            <==> Filled(printingType) && Filled(printingMode)
  {
    if Filled(printingType) && Filled(printingMode) {
      var line := PrintingLine(printingType, printingMode).value;
      assert line[|printingType.value| + 1] == '(';
    }
  }

  /** `w.charAt(0).toUpperCase() + w.slice(1)`. */
  function Capitalize(w: string): (r: string)
    ensures |r| == |w|
    ensures |w| > 0 ==> r[0] == UpperChar(w[0]) && r[1..] == w[1..]
  {
    if w == "" then "" else [UpperChar(w[0])] + w[1..]
  }

  /** The label of a custom field: its key split on `_`, each word
      capitalised, joined with spaces. */
  function PrettyKey(key: string): string {
    Join(Map(Capitalize, Split(key, "_")), " ")
  }

  /** A key without spaces shows as exactly its `_`-separated words,
      capitalised: splitting the label on spaces gives them back, so no word
      is lost or merged. */
  lemma PrettyKeyWords(key: string)
    requires ' ' !in key
    ensures Split(PrettyKey(key), " ") == Map(Capitalize, Split(key, "_"))
    ensures |Split(PrettyKey(key), " ")| == |Split(key, "_")|
  {
    var words := Split(key, "_");
    var shown := Map(Capitalize, words);
    SplitChars(key, "_");
    forall i | 0 <= i < |shown|
      ensures !Includes(shown[i], " ")
    {
      forall j | 0 <= j < |shown[i]|
        ensures shown[i][j] != ' '
      {
        assert CharsWithin(words[i], key);
        assert words[i][j] in key;
        if j > 0 {
          assert shown[i][j] == shown[i][1..][j - 1] == words[i][j];
        }
      }
      IncludesChar(shown[i], ' ');
    }
    SingleCharNoBorder(" ");
    SplitJoin(shown, " ");
  }

  /** The custom fields the page lists: those whose value is not blank. */
  function ShownCustomFields(fields: map<string, string>): (r: map<string, string>)
    ensures forall k :: k in r <==> k in fields && !IsBlank(fields[k])
    ensures forall k :: k in r ==> r[k] == fields[k]
  {
    map k | k in fields && !IsBlank(fields[k]) :: fields[k]
  }
}
