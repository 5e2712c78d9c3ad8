/** The translation between a line item as the server stores it and as the
    forms edit it: EditJob's load normalisation, and the item cleaning both
    forms apply before submitting. */
module Wire {
  import opened Wrappers
  import opened Seqs
  import opened Text
  import opened LineItems

  /** A line item as the server sends it and as the forms post it back.
      The fields the edit form defaults when absent are optional; the
      product and option fields are taken to be always present. Accessories
      travel as one `", "`-separated string. */
  datatype StoredItem = StoredItem(
    productType: string,
    cardSize: string,
    quantity: Value,
    printingType: string,
    printingMode: string,
    finish: string,
    material: string,
    accessories: Option<string>,
    binding: string,
    corner: string,
    paperThickness: string,
    variableData: Option<string>,
    rate: Value,
    advanceAmount: Value,
    additionalInfo: Option<string>,
    customFields: Option<map<string, string>>)

  const Separator: string := ", "

  /** `v === 0 ? '' : v`: a stored zero amount is shown as an empty field. */
  function LoadAmount(v: Value): (r: Value)
    ensures v == Num(0) ==> r == Str("")
    ensures v != Num(0) ==> r == v
  {
    if v == Num(0) then Str("") else v
  }

  /** `v === '' ? 0 : v`: an empty amount field is sent as zero. */
  function SubmitAmount(v: Value): (r: Value)
    ensures v == Str("") ==> r == Num(0)
    ensures v != Str("") ==> r == v
  {
    if v == Str("") then Num(0) else v
  }

  /** An amount that is not a stored zero survives submit-then-load; a
      stored zero comes back as zero. */
  lemma AmountRoundTrips(v: Value)
    ensures v != Num(0) ==> LoadAmount(SubmitAmount(v)) == v
    ensures SubmitAmount(LoadAmount(v)) == (if v == Str("") then Num(0) else v)
    ensures LoadAmount(SubmitAmount(v)) == v <==> v != Num(0)
  {
  }

  /** `s ? s.split(', ') : []`: a missing or empty accessories string loads
      as no accessories. */
  function LoadAccessories(s: Option<string>): (r: seq<string>)
    ensures s.None? || s == Some("") ==> r == []
    ensures s.Some? && s.value != "" ==> r == Split(s.value, Separator) && |r| >= 1
  {
    if s.None? || s.value == "" then [] else Split(s.value, Separator)
  }

  /** `xs.join(', ')`. */
  function JoinAccessories(xs: seq<string>): string {
    Join(xs, Separator)
  }

  /** The accessories lists that survive a save and a reload: the empty list,
      and any other list but `[""]` whose values do not contain `", "`. */
  predicate Storable(xs: seq<string>) {
    xs == [] || (xs != [""] && forall i :: 0 <= i < |xs| ==> !Includes(xs[i], Separator))
  }

  /** Joining a storable list and loading it again gives the list back. */
  lemma AccessoriesRoundTrip(xs: seq<string>)
    requires Storable(xs)
    ensures LoadAccessories(Some(JoinAccessories(xs))) == xs
  {
    if xs != [] {
      CommaSpaceNoBorder();
      SplitJoin(xs, Separator);
    }
  }

  /** Loading a stored string and joining it again gives the string back. */
  lemma AccessoriesLoadJoin(s: string)
    ensures JoinAccessories(LoadAccessories(Some(s))) == s
  {
    if s != "" {
      JoinSplit(s, Separator);
    }
  }

  /** EditJob's load of one item. */
  function LoadItem(s: StoredItem): (r: Item)
    ensures r.accessories == Picked(LoadAccessories(s.accessories))
    ensures r.rate == LoadAmount(s.rate) && r.advanceAmount == LoadAmount(s.advanceAmount)
    ensures r.additionalInfo == s.additionalInfo.GetOr("") && r.variableData == s.variableData.GetOr("")
    ensures r.customFields == s.customFields.GetOr(map[])
    ensures r.productType == s.productType && r.quantity == s.quantity
    ensures forall f :: IsOptionField(f) ==> Get(r, f) == Text(StoredText(s, f))
  {
    Item(s.productType, s.cardSize, s.quantity, s.printingType, s.printingMode,
         s.finish, s.material, Picked(LoadAccessories(s.accessories)), s.binding,
         s.corner, s.paperThickness, s.variableData.GetOr(""), LoadAmount(s.rate),
         LoadAmount(s.advanceAmount), s.additionalInfo.GetOr(""), s.customFields.GetOr(map[]))
  }

  /** The stored value of an option field. */
  function StoredText(s: StoredItem, f: Field): string
    requires IsOptionField(f)
  {
    match f
    case CardSize => s.cardSize
    case PrintingType => s.printingType
    case PrintingMode => s.printingMode
    case Finish => s.finish
    case Material => s.material
    case Binding => s.binding
    case Corner => s.corner
    case PaperThickness => s.paperThickness
  }

  /** The text that is posted for an item's accessories, or `None` when the
      form's `join` call would throw because the field holds a string. */
  function SubmitAccessories(a: Accessories, checkArray: bool): (r: Option<string>)
    ensures a.Picked? ==> r == Some(JoinAccessories(a.names))
    ensures a.Raw? ==> (r.Some? <==> checkArray)
    ensures a.Raw? && checkArray ==> r == Some(a.text)
  {
    match a
    case Picked(xs) => Some(JoinAccessories(xs))
    case Raw(s) => if checkArray then Some(s) else None
  }

  /** The submit-time cleaning of one item: empty amounts become 0 and the
      accessories list becomes one string. `checkArray` is EditJob's
      `Array.isArray` guard; NewJob has none, and its `join` throws on a
      string, which is `None` here. */
  function CleanItem(item: Item, checkArray: bool): (r: Option<StoredItem>)
    ensures r.Some? <==> item.accessories.Picked? || checkArray
    ensures r.Some? ==>
              && r.value.rate == SubmitAmount(item.rate)
              && r.value.advanceAmount == SubmitAmount(item.advanceAmount)
              && r.value.accessories == SubmitAccessories(item.accessories, checkArray)
              && r.value.additionalInfo == Some(item.additionalInfo)
              && r.value.variableData == Some(item.variableData)
              && r.value.customFields == Some(item.customFields)
              && r.value.productType == item.productType && r.value.quantity == item.quantity
              && forall f :: IsOptionField(f) ==> Text(StoredText(r.value, f)) == Get(item, f)
  {
    match SubmitAccessories(item.accessories, checkArray)
    case None => None
    case Some(acc) =>
      Some(StoredItem(item.productType, item.cardSize, item.quantity, item.printingType,
                      item.printingMode, item.finish, item.material, Some(acc), item.binding,
                      item.corner, item.paperThickness, Some(item.variableData),
                      SubmitAmount(item.rate), SubmitAmount(item.advanceAmount),
                      Some(item.additionalInfo), Some(item.customFields)))
  }

  /** `items.map(clean)` for a whole order; `None` when any item's cleaning throws. */
  function CleanItems(items: seq<Item>, checkArray: bool): (r: Option<seq<StoredItem>>)
    ensures r.Some? <==> forall i :: 0 <= i < |items| ==> CleanItem(items[i], checkArray).Some?
    ensures r.Some? ==> |r.value| == |items|
                        && forall i :: 0 <= i < |items| ==> Some(r.value[i]) == CleanItem(items[i], checkArray)
  {
    if items == [] then Some([])
    else
      match (CleanItem(items[0], checkArray), CleanItems(items[1..], checkArray))
      case (Some(x), Some(xs)) => Some([x] + xs)
      case _ => None
  }

  /** EditJob never fails to clean: every item is posted. */
  lemma EditJobCleansAll(items: seq<Item>)
    ensures CleanItems(items, true).Some?
  {
  }

  /** An item saved from the edit form and loaded again comes back as it was,
      provided its accessories are a storable list and neither amount is a
      numeric zero (which loads as an empty field). */
  lemma SaveThenLoad(item: Item)
    requires item.accessories.Picked? && Storable(item.accessories.names)
    requires item.rate != Num(0) && item.advanceAmount != Num(0)
    ensures CleanItem(item, true).Some? && LoadItem(CleanItem(item, true).value) == item
  {
    var stored := CleanItem(item, true).value;
    AccessoriesRoundTrip(item.accessories.names);
    AmountRoundTrips(item.rate);
    AmountRoundTrips(item.advanceAmount);
    var back := LoadItem(stored);
    forall f
      ensures Get(back, f) == Get(item, f)
    {
    }
    ItemsEqual(back, item);
  }

  /** A stored item with every field present, loaded into the edit form and
      saved unchanged, is posted back as it was stored, unless an amount was
      stored as the empty string (which is posted as zero). */
  lemma LoadThenSave(s: StoredItem)
    requires s.accessories.Some? && s.variableData.Some? && s.additionalInfo.Some?
    requires s.customFields.Some?
    requires s.rate != Str("") && s.advanceAmount != Str("")
    ensures CleanItem(LoadItem(s), true) == Some(s)
  {
    AccessoriesLoadJoin(s.accessories.value);
    AmountRoundTrips(s.rate);
    AmountRoundTrips(s.advanceAmount);
  }
}
