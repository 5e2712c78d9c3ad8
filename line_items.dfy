/** One line item of a job order as the NewJob and EditJob forms hold it,
    and the pure steps the forms apply to it: building a fresh item,
    routing a field change, resetting the option fields after a product
    change, toggling an accessory, and re-keying the per-item file map. */
module LineItems {
  import opened Wrappers
  import opened Seqs
  import opened Catalog

  /** A form value that is either what the user typed, a number that came
      from the server, or absent (`undefined`). */
  datatype Value = Str(text: string) | Num(n: int) | Missing

  /** The accessories of an item: normally the list of ticked values; a
      plain string when a text value was written into the field. */
  datatype Accessories = Picked(names: seq<string>) | Raw(text: string)

  datatype Item = Item(
    productType: string,
    cardSize: string,
    quantity: Value,
    printingType: string,
    printingMode: string,
    finish: string,
    material: string,
    accessories: Accessories,
    binding: string,
    corner: string,
    paperThickness: string,
    variableData: string,
    rate: Value,
    advanceAmount: Value,
    additionalInfo: string,
    customFields: map<string, string>)

  /** The 15 fields `handleItemChange` writes on the item itself; every
      other name goes to `custom_fields`. */
  datatype Field =
    | ProductType | CardSize | Quantity | Rate | AdvanceAmount | VariableData
    | PrintingType | PrintingMode | Finish | Material | AccessoryList
    | Binding | Corner | PaperThickness | AdditionalInfo

  /** The key of a field in the form state and on the wire. */
  function Name(f: Field): string {
    match f
    case ProductType => "product_type"
    case CardSize => "card_size"
    case Quantity => "quantity"
    case Rate => "rate"
    case AdvanceAmount => "advance_amount"
    case VariableData => "variable_data"
    case PrintingType => "printing_type"
    case PrintingMode => "printing_mode"
    case Finish => "finish"
    case Material => "material"
    case AccessoryList => "accessories"
    case Binding => "binding"
    case Corner => "corner"
    case PaperThickness => "paper_thickness"
    case AdditionalInfo => "additional_info"
  }

  /** `coreFields.includes(name)`, answered with the field it names. */
  function FieldNamed(name: string): (r: Option<Field>)
    ensures r.Some? ==> Name(r.value) == name
  {
    match name
    case "product_type" => Some(ProductType)
    case "card_size" => Some(CardSize)
    case "quantity" => Some(Quantity)
    case "rate" => Some(Rate)
    case "advance_amount" => Some(AdvanceAmount)
    case "variable_data" => Some(VariableData)
    case "printing_type" => Some(PrintingType)
    case "printing_mode" => Some(PrintingMode)
    case "finish" => Some(Finish)
    case "material" => Some(Material)
    case "accessories" => Some(AccessoryList)
    case "binding" => Some(Binding)
    case "corner" => Some(Corner)
    case "paper_thickness" => Some(PaperThickness)
    case "additional_info" => Some(AdditionalInfo)
    case _ => None
  }

  /** Every core field's own key is recognised as that field, so the
      15 keys are distinct and all of them are routed to the item. */
  lemma FieldNamedName(f: Field)
    ensures FieldNamed(Name(f)) == Some(f)
  {
  }

  /** The eight selectable fields that take their default from the resolved options. */
  predicate IsOptionField(f: Field) {
    f.PrintingType? || f.PrintingMode? || f.Finish? || f.Material?
    || f.CardSize? || f.Binding? || f.Corner? || f.PaperThickness?
  }

  /** The content of one core field. */
  datatype Cell = Text(s: string) | Amount(v: Value) | Acc(a: Accessories)

  function Get(item: Item, f: Field): Cell {
    match f
    case ProductType => Text(item.productType)
    case CardSize => Text(item.cardSize)
    case Quantity => Amount(item.quantity)
    case Rate => Amount(item.rate)
    case AdvanceAmount => Amount(item.advanceAmount)
    case VariableData => Text(item.variableData)
    case PrintingType => Text(item.printingType)
    case PrintingMode => Text(item.printingMode)
    case Finish => Text(item.finish)
    case Material => Text(item.material)
    case AccessoryList => Acc(item.accessories)
    case Binding => Text(item.binding)
    case Corner => Text(item.corner)
    case PaperThickness => Text(item.paperThickness)
    case AdditionalInfo => Text(item.additionalInfo)
  }

  /** Two items whose core fields and custom fields agree are the same item:
      `Get` and `customFields` together see all of an item. */
  lemma ItemsEqual(a: Item, b: Item)
    requires forall f :: Get(a, f) == Get(b, f)
    requires a.customFields == b.customFields
    ensures a == b
  {
    assert Get(a, ProductType) == Get(b, ProductType);
    assert Get(a, CardSize) == Get(b, CardSize);
    assert Get(a, Quantity) == Get(b, Quantity);
    assert Get(a, Rate) == Get(b, Rate);
    assert Get(a, AdvanceAmount) == Get(b, AdvanceAmount);
    assert Get(a, VariableData) == Get(b, VariableData);
    assert Get(a, PrintingType) == Get(b, PrintingType);
    assert Get(a, PrintingMode) == Get(b, PrintingMode);
    assert Get(a, Finish) == Get(b, Finish);
    assert Get(a, Material) == Get(b, Material);
    assert Get(a, AccessoryList) == Get(b, AccessoryList);
    assert Get(a, Binding) == Get(b, Binding);
    assert Get(a, Corner) == Get(b, Corner);
    assert Get(a, PaperThickness) == Get(b, PaperThickness);
    assert Get(a, AdditionalInfo) == Get(b, AdditionalInfo);
  }

  /** What an input's string `value` becomes when written to field `f`. */
  function Typed(f: Field, value: string): Cell {
    match f
    case AccessoryList => Acc(Raw(value))
    case Quantity | Rate | AdvanceAmount => Amount(Str(value))
    case _ => Text(value)
  }

  /** The fallback of an option field: `'Standard'` for the card size, `''` otherwise. */
  function Fallback(f: Field): string {
    if f == CardSize then "Standard" else ""
  }

  /** `opts[name]?.[0] || fallback`: the first offered value, unless there is
      none or it is the empty string. */
  function DefaultFor(opts: Options, f: Field): (r: string)
    ensures r == Fallback(f) || (Name(f) in opts && |opts[Name(f)]| > 0 && r == opts[Name(f)][0])
    ensures r == Fallback(f) <==> Name(f) !in opts || |opts[Name(f)]| == 0
                                  || opts[Name(f)][0] == "" || opts[Name(f)][0] == Fallback(f)
  {
    var c := Name(f);
    if c in opts && |opts[c]| > 0 && opts[c][0] != "" then opts[c][0]
    else Fallback(f)
  }

  /** `products[0]?.name || ''`. */
  function FirstProductName(products: seq<Product>): (r: string)
    ensures |products| == 0 ==> r == ""
    ensures |products| > 0 ==> r == products[0].name
  {
    if |products| == 0 then "" else products[0].name
  }

  /** The item `addItem` (and the first load of NewJob) appends, for the
      options `opts` resolved for the first product. */
  function NewItem(products: seq<Product>, opts: Options): (r: Item)
    ensures r.productType == FirstProductName(products)
    ensures forall f :: IsOptionField(f) ==> Get(r, f) == Text(DefaultFor(opts, f))
    ensures r.quantity == Str("") && r.rate == Str("") && r.advanceAmount == Str("")
    ensures r.variableData == "" && r.additionalInfo == ""
    ensures r.accessories == Picked([]) && r.customFields == map[]
  {
    Item(FirstProductName(products), DefaultFor(opts, CardSize), Str(""),
         DefaultFor(opts, PrintingType), DefaultFor(opts, PrintingMode),
         DefaultFor(opts, Finish), DefaultFor(opts, Material), Picked([]),
         DefaultFor(opts, Binding), DefaultFor(opts, Corner),
         DefaultFor(opts, PaperThickness), "", Str(""), Str(""), "", map[])
  }

  /** `item` with field `f` replaced by `c`, when `c` has the field's shape. */
  function Put(item: Item, f: Field, value: string): (r: Item)
    ensures Get(r, f) == Typed(f, value)
    ensures forall g :: g != f ==> Get(r, g) == Get(item, g)
    ensures r.customFields == item.customFields
  {
    match f
    case ProductType => item.(productType := value)
    case CardSize => item.(cardSize := value)
    case Quantity => item.(quantity := Str(value))
    case Rate => item.(rate := Str(value))
    case AdvanceAmount => item.(advanceAmount := Str(value))
    case VariableData => item.(variableData := value)
    case PrintingType => item.(printingType := value)
    case PrintingMode => item.(printingMode := value)
    case Finish => item.(finish := value)
    case Material => item.(material := value)
    case AccessoryList => item.(accessories := Raw(value))
    case Binding => item.(binding := value)
    case Corner => item.(corner := value)
    case PaperThickness => item.(paperThickness := value)
    case AdditionalInfo => item.(additionalInfo := value)
  }

  /** The first half of `handleItemChange`: a core name writes that field, any
      other name writes `custom_fields[name]`; nothing else changes. */
  function SetField(item: Item, name: string, value: string): (r: Item)
    ensures forall f :: FieldNamed(name) == Some(f) ==>
              Get(r, f) == Typed(f, value) && r.customFields == item.customFields
    ensures FieldNamed(name).None? ==> r.customFields == item.customFields[name := value]
    ensures forall g :: FieldNamed(name) != Some(g) ==> Get(r, g) == Get(item, g)
  {
    match FieldNamed(name)
    case Some(f) => Put(item, f, value)
    case None => item.(customFields := item.customFields[name := value])
  }

  /** The second half of a product change: the eight option fields take their
      defaults from the new options and `additional_info` is cleared; the
      product, quantity, amounts, variable data, accessories and custom
      fields are kept. */
  function ResetOptions(item: Item, opts: Options): (r: Item)
    ensures forall f :: IsOptionField(f) ==> Get(r, f) == Text(DefaultFor(opts, f))
    ensures r.additionalInfo == ""
    ensures r.productType == item.productType && r.quantity == item.quantity
    ensures r.rate == item.rate && r.advanceAmount == item.advanceAmount
    ensures r.variableData == item.variableData && r.accessories == item.accessories
    ensures r.customFields == item.customFields
  {
    item.(printingType := DefaultFor(opts, PrintingType),
          printingMode := DefaultFor(opts, PrintingMode),
          finish := DefaultFor(opts, Finish),
          material := DefaultFor(opts, Material),
          cardSize := DefaultFor(opts, CardSize),
          binding := DefaultFor(opts, Binding),
          corner := DefaultFor(opts, Corner),
          paperThickness := DefaultFor(opts, PaperThickness),
          additionalInfo := "")
  }

  /** Every option field of a fresh or reset item is either a value the
      resolved options offer for it, or its fallback when none is usable. */
  lemma DefaultsAreOffered(opts: Options, f: Field)
    ensures var d := DefaultFor(opts, f);
            (Name(f) in opts && d in opts[Name(f)]) || d == Fallback(f)
  {
  }

  /** Resetting twice is resetting once: the reset depends only on the options. */
  lemma ResetIdempotent(item: Item, opts: Options)
    ensures ResetOptions(ResetOptions(item, opts), opts) == ResetOptions(item, opts)
  {
  }

  /** The result of `handleItemChange` for one item: the new item and, for a
      product change, the options resolved for the new product. */
  datatype Change = Change(item: Item, options: Option<Options>)

  /** `handleItemChange(index, name, value)` applied to the item at `index`,
      with the catalog `products` and `settings`. */
  function ApplyChange(item: Item, name: string, value: string,
                       products: seq<Product>, settings: seq<Setting>): (r: Change)
    ensures r.item.productType == if name == "product_type" then value else item.productType
    ensures name != "product_type" ==> r.options.None? && r.item == SetField(item, name, value)
    ensures name == "product_type" ==>
              && r.options == Some(Resolve(value, products, settings))
              && r.item.productType == value
              && r.item == ResetOptions(SetField(item, name, value), r.options.value)
  {
    var changed := SetField(item, name, value);
    if name == "product_type" then
      var opts := Resolve(value, products, settings);
      Change(ResetOptions(changed, opts), Some(opts))
    else
      Change(changed, None)
  }

  /** A product change keeps every field the user filled in apart from the
      option fields and `additional_info`. */
  lemma ProductChangeKeeps(item: Item, value: string, products: seq<Product>, settings: seq<Setting>)
    ensures var r := ApplyChange(item, "product_type", value, products, settings).item;
            && r.quantity == item.quantity && r.rate == item.rate
            && r.advanceAmount == item.advanceAmount && r.variableData == item.variableData
            && r.accessories == item.accessories && r.customFields == item.customFields
            && forall f :: IsOptionField(f) ==>
                 Get(r, f) == Text(DefaultFor(Resolve(value, products, settings), f))
  {
  }

  /** `[...item.accessories]`: a list is copied, a string spreads into its characters. */
  function Spread(a: Accessories): (r: seq<string>)
    ensures a.Picked? ==> r == a.names
    ensures a.Raw? ==> |r| == |a.text| && forall i :: 0 <= i < |r| ==> r[i] == [a.text[i]]
  {
    match a
    case Picked(xs) => xs
    case Raw(s) => seq(|s|, i requires 0 <= i < |s| => [s[i]])
  }

  function IsNot(v: string): string -> bool {
    (a: string) => a != v
  }

  /** `handleItemCheckboxChange`: ticking appends the value, unticking removes
      every occurrence of it and keeps the others in order. */
  function Toggle(a: Accessories, value: string, checked: bool): (r: seq<string>)
    ensures checked ==> r == Spread(a) + [value]
    ensures !checked ==> value !in r && r == Filter(Spread(a), IsNot(value))
    ensures !checked ==> forall x :: x != value ==> multiset(r)[x] == multiset(Spread(a))[x]
  {
    if checked then Spread(a) + [value]
    else
      var r := Filter(Spread(a), IsNot(value));
      FilterMembership(Spread(a), IsNot(value), value);
      forall x | x != value
        ensures multiset(r)[x] == multiset(Spread(a))[x]
      {
        FilterCounts(Spread(a), IsNot(value), x);
      }
      r
  }

  /** Ticking then unticking a value that was not yet there gives the list back. */
  lemma {:induction false} ToggleOnOff(xs: seq<string>, value: string)
    requires value !in xs
    ensures Toggle(Picked(Toggle(Picked(xs), value, true)), value, false) == xs
  {
    FilterAppend(xs, [value], IsNot(value));
    assert Filter([value], IsNot(value)) == [];
    assert forall i :: 0 <= i < |xs| ==> IsNot(value)(xs[i]);
  }

  /** The new key of old key `j` once item `index` is removed. */
  function Shift(j: nat, index: nat): nat
    requires j != index
  {
    if j < index then j else j - 1
  }

  /** The old key whose file ends up under new key `k`. */
  function Source(k: nat, index: nat): nat {
    if k < index then k else k + 1
  }

  /** The keys left once item `index` is removed. */
  function Keys<F>(files: map<nat, F>, index: nat): set<nat> {
    set j | j in files && j != index :: Shift(j, index)
  }

  /** A new key is present exactly when its source key holds a file. */
  lemma KeysSpec<F>(files: map<nat, F>, index: nat)
    ensures forall k :: k in Keys(files, index) <==> Source(k, index) in files
  {
    forall k: nat | Source(k, index) in files
      ensures k in Keys(files, index)
    {
      if k < index {
        assert Shift(k, index) == k;
      } else {
        assert Shift(k + 1, index) == k;
      }
    }
    forall k | k in Keys(files, index)
      ensures Source(k, index) in files
    {
      var j :| j in files && j != index && Shift(j, index) == k;
      if j > index {
        assert k + 1 == j;
      }
    }
  }
  /** The `files` map after `removeItem(index)`: every new key holds the file
      of its source key, and key `index` is dropped. */
  function Reindexed<F>(files: map<nat, F>, index: nat): (r: map<nat, F>)
    ensures forall k :: k in r <==> Source(k, index) in files
    ensures forall k :: k in r ==> r[k] == files[Source(k, index)]
  {
    KeysSpec(files, index);
    map k | k in Keys(files, index) :: files[Source(k, index)]
  }

  /** Keys below `index` keep their file, keys from `index` on hold the file
      of the next key, and nothing else is in the re-keyed map. */
  lemma ReindexedCases<F>(files: map<nat, F>, index: nat, k: nat)
    ensures k < index ==> (k in Reindexed(files, index) <==> k in files)
    ensures k < index && k in files ==> Reindexed(files, index)[k] == files[k]
    ensures k >= index ==> (k in Reindexed(files, index) <==> k + 1 in files)
    ensures k >= index && k + 1 in files ==> Reindexed(files, index)[k] == files[k + 1]
  {
    if k < index {
      assert Source(k, index) == k;
    } else {
      assert Source(k, index) == k + 1;
    }
  }
  lemma Elem(s: set<nat>) returns (x: nat)
    requires s != {}
    ensures x in s
  {
    x :| x in s;
  }
  lemma {:induction false} ShiftInjective(keys: set<nat>, index: nat)
    requires index !in keys
    ensures |set j | j in keys :: Shift(j, index)| == |keys|
    decreases |keys|
  {
    if keys != {} {
      var x := Elem(keys);
      var rest := keys - {x};
      ShiftInjective(rest, index);
      var img := set i | i in rest :: Shift(i, index);
      assert Shift(x, index) !in img;
      assert (set i | i in keys :: Shift(i, index)) == img + {Shift(x, index)};
    }
  }
  lemma ReindexedSize<F>(files: map<nat, F>, index: nat)
    ensures index in files ==> |Reindexed(files, index)| == |files| - 1
    ensures index !in files ==> |Reindexed(files, index)| == |files|
  {
    var kept := files.Keys - {index};
    assert Reindexed(files, index).Keys == set j | j in kept :: Shift(j, index);
    ShiftInjective(kept, index);
  }
}
