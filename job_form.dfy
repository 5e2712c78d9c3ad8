/** The state of the NewJob and EditJob forms: the catalog they were loaded
    with, the line items, the options resolved for each item (kept
    index-aligned with the items), NewJob's per-item file map, and the
    selected client's contact fields. Each handler is one atomic step. */
module JobForm {
  import opened Wrappers
  import opened Seqs
  import opened Catalog
  import opened LineItems
  import opened Wire
  import opened Clients

  /** The client part of the form: `client_id` (`''` is `None`) and the five
      copied contact fields. */
  datatype ClientFields = ClientFields(
    clientId: Option<int>,
    name: string,
    phone: string,
    email: string,
    company: string,
    address: string)

  const NoClient: ClientFields := ClientFields(None, "", "", "", "", "")

  /** The contact fields copied from a client, `''` for a missing one. */
  function ClientFieldsOf(c: Client): (r: ClientFields)
    ensures r.clientId == Some(c.id) && r.name == c.name
    ensures r.phone == c.phone.GetOr("") && r.email == c.email.GetOr("")
    ensures r.company == c.company.GetOr("") && r.address == c.address.GetOr("")
  {
    ClientFields(Some(c.id), c.name, c.phone.GetOr(""), c.email.GetOr(""),
                 c.company.GetOr(""), c.address.GetOr(""))
  }

  function HasId(id: int): Client -> bool {
    (c: Client) => c.id == id
  }

  /** What the catalog fetch on mount returns, when it succeeds. */
  datatype Catalogs = Catalogs(clients: seq<Client>, products: seq<Product>, settings: seq<Setting>)

  /** How a quick-add ended. */
  datatype QuickAddOutcome = NoProduct | Cancelled | Failed | Added

  /** The options every item is entitled to: its product's resolved settings. */
  function ResolveAll(items: seq<Item>, products: seq<Product>, settings: seq<Setting>): (r: seq<Options>)
    ensures |r| == |items|
    ensures forall i :: 0 <= i < |items| ==> r[i] == Resolve(items[i].productType, products, settings)
  {
    seq(|items|, i requires 0 <= i < |items| => Resolve(items[i].productType, products, settings))
  }

  /** A new item brings its own options entry at the end. */
  lemma ResolveAllAppend(items: seq<Item>, item: Item, products: seq<Product>, settings: seq<Setting>)
    ensures ResolveAll(items + [item], products, settings)
            == ResolveAll(items, products, settings) + [Resolve(item.productType, products, settings)]
  {
  }

  /** Removing an item removes its options entry and keeps the others in place. */
  lemma ResolveAllRemove(items: seq<Item>, index: nat, products: seq<Product>, settings: seq<Setting>)
    ensures ResolveAll(RemoveAt(items, index), products, settings)
            == RemoveAt(ResolveAll(items, products, settings), index)
  {
  }

  /** Changing one item re-resolves only that item's options. */
  lemma ResolveAllUpdate(items: seq<Item>, index: nat, item: Item, products: seq<Product>, settings: seq<Setting>)
    requires index < |items|
    ensures ResolveAll(items[index := item], products, settings)
            == ResolveAll(items, products, settings)[index := Resolve(item.productType, products, settings)]
  {
  }

  /** The `files` map re-keyed after item `index` is removed, built key by key
      as the `Object.keys(files).forEach` loop does. */
  method ReindexFiles<F>(files: map<nat, F>, index: nat) returns (r: map<nat, F>)
    ensures r == Reindexed(files, index)
  {
    r := map[];
    var todo := files.Keys;
    while todo != {}
      invariant todo <= files.Keys
      invariant forall k :: k in r <==> Source(k, index) in files && Source(k, index) !in todo
      invariant forall k :: k in r ==> Source(k, index) in files && r[k] == files[Source(k, index)]
      decreases |todo|
    {
      var k :| k in todo;
      if k < index {
        r := r[k := files[k]];
      } else if k > index {
        assert Source(k - 1, index) == k;
        r := r[k - 1 := files[k]];
      }
      todo := todo - {k};
    }
    SourceMapIsReindexed(files, index, r);
  }

  /** A map that holds, under each new key, the file of its source key is
      the re-keyed map. */
  lemma SourceMapIsReindexed<F>(files: map<nat, F>, index: nat, r: map<nat, F>)
    requires forall k :: k in r <==> Source(k, index) in files
    requires forall k :: k in r ==> Source(k, index) in files && r[k] == files[Source(k, index)]
    ensures r == Reindexed(files, index)
  {
    var want := Reindexed(files, index);
    forall k: nat
      ensures k in r <==> k in want
    {
    }
    assert r.Keys == want.Keys;
  }

  class Editor {
    var products: seq<Product>
    var settings: seq<Setting>
    var clients: seq<Client>
    var items: seq<Item>
    var settingsList: seq<Options>
    var files: map<nat, string>
    var client: ClientFields

    /** `settingsList` has one entry per item, and each entry is what the
        resolver gives for that item's product and the current catalog. */
    predicate Valid()
      reads this
    {
      settingsList == ResolveAll(items, products, settings)
    }

    /** NewJob after its mount effect: with the catalog fetched, one fresh item
        for the first product; when the fetch fails, an empty form. */
    constructor NewJob(fetched: Option<Catalogs>)
      ensures Valid()
      ensures fetched.None? ==> products == [] && settings == [] && clients == [] && items == []
      ensures fetched.Some? ==>
                && products == fetched.value.products && settings == fetched.value.settings
                && clients == fetched.value.clients
                && items == [NewItem(products, Resolve(FirstProductName(products), products, settings))]
      ensures files == map[] && client == NoClient
    {
      files := map[];
      client := NoClient;
      match fetched
      case None =>
        products, settings, clients := [], [], [];
        items, settingsList := [], [];
      case Some(c) =>
        products, settings, clients := c.products, c.settings, c.clients;
        var opts := Resolve(FirstProductName(c.products), c.products, c.settings);
        items := [NewItem(c.products, opts)];
        settingsList := [opts];
    }

    /** EditJob after its load: every stored item normalised by `LoadItem`,
        and exactly one resolved options entry per item. `job` is `None` when
        the server has no such job; a failed fetch leaves the form empty. */
    constructor EditJob(fetched: Option<Catalogs>, job: Option<Option<seq<StoredItem>>>)
      ensures Valid()
      ensures fetched.Some? ==>
                products == fetched.value.products && settings == fetched.value.settings
                && clients == fetched.value.clients
      ensures fetched.None? ==> products == [] && settings == [] && clients == []
      ensures fetched.Some? && job.Some? ==>
                && |items| == |job.value.GetOr([])|
                && forall i :: 0 <= i < |items| ==> items[i] == LoadItem(job.value.GetOr([])[i])
      ensures fetched.None? || job.None? ==> items == []
      ensures files == map[] && client == NoClient
    {
      files := map[];
      client := NoClient;
      match fetched
      case None =>
        products, settings, clients := [], [], [];
        items, settingsList := [], [];
      case Some(c) =>
        products, settings, clients := c.products, c.settings, c.clients;
        if job.Some? {
          var stored := job.value.GetOr([]);
          var loaded := Map(LoadItem, stored);
          items := loaded;
          settingsList := ResolveAll(loaded, c.products, c.settings);
        } else {
          items, settingsList := [], [];
        }
    }

    /** `addItem`: one fresh item for the first product, and its options. */
    method AddItem()
      requires Valid()
      modifies this
      ensures Valid()
      ensures var opts := Resolve(FirstProductName(products), products, settings);
              items == old(items) + [NewItem(products, opts)]
              && settingsList == old(settingsList) + [opts]
      ensures products == old(products) && settings == old(settings) && clients == old(clients)
      ensures files == old(files) && client == old(client)
    {
      var opts := Resolve(FirstProductName(products), products, settings);
      var item := NewItem(products, opts);
      ResolveAllAppend(items, item, products, settings);
      items := items + [item];
      settingsList := settingsList + [opts];
    }

    /** EditJob's `removeItem(index)`: a lone item is never removed; otherwise
        the item at `index` and its options go, and the rest keep their order. */
    method RemoveItem(index: nat)
      requires Valid()
      modifies this
      ensures Valid()
      ensures |old(items)| == 1 ==> items == old(items) && settingsList == old(settingsList)
      ensures |old(items)| != 1 ==> items == RemoveAt(old(items), index)
                                    && settingsList == RemoveAt(old(settingsList), index)
      ensures products == old(products) && settings == old(settings) && clients == old(clients)
      ensures files == old(files) && client == old(client)
    {
      if |items| == 1 {
        return;
      }
      ResolveAllRemove(items, index, products, settings);
      items := RemoveAt(items, index);
      settingsList := RemoveAt(settingsList, index);
    }

    /** NewJob's `removeItem(index)`: as EditJob's, and the file map is
        re-keyed to the new positions. */
    method RemoveItemWithFiles(index: nat)
      requires Valid()
      modifies this
      ensures Valid()
      ensures |old(items)| == 1 ==> items == old(items) && settingsList == old(settingsList)
                                    && files == old(files)
      ensures |old(items)| != 1 ==> items == RemoveAt(old(items), index)
                                    && settingsList == RemoveAt(old(settingsList), index)
                                    && files == Reindexed(old(files), index)
      ensures products == old(products) && settings == old(settings) && clients == old(clients)
      ensures client == old(client)
    {
      if |items| == 1 {
        return;
      }
      ResolveAllRemove(items, index, products, settings);
      items := RemoveAt(items, index);
      settingsList := RemoveAt(settingsList, index);
      files := ReindexFiles(files, index);
    }

    /** `handleItemChange(index, name, value)`: only item `index` changes; a
        product change also replaces that item's options. */
    method ChangeField(index: nat, name: string, value: string)
      requires Valid() && index < |items|
      modifies this
      ensures Valid()
      ensures items == old(items)[index := ApplyChange(old(items)[index], name, value, products, settings).item]
      ensures name != "product_type" ==> settingsList == old(settingsList)
      ensures name == "product_type" ==>
                settingsList == old(settingsList)[index := Resolve(value, products, settings)]
      ensures products == old(products) && settings == old(settings) && clients == old(clients)
      ensures files == old(files) && client == old(client)
    {
      var change := ApplyChange(items[index], name, value, products, settings);
      ResolveAllUpdate(items, index, change.item, products, settings);
      items := items[index := change.item];
      if change.options.Some? {
        settingsList := settingsList[index := change.options.value];
      }
    }

    /** The select of an extra category: it always writes `custom_fields[name]`,
        even for a name `handleItemChange` would route to the item itself. */
    method SelectCustomOption(index: nat, name: string, value: string)
      requires Valid() && index < |items|
      modifies this
      ensures Valid()
      ensures items == old(items)[index := old(items)[index].(customFields := old(items)[index].customFields[name := value])]
      ensures settingsList == old(settingsList)
      ensures products == old(products) && settings == old(settings) && clients == old(clients)
      ensures files == old(files) && client == old(client)
    {
      var item := items[index];
      items := items[index := item.(customFields := item.customFields[name := value])];
    }

    /** `handleItemCheckboxChange(index, value, checked)`. */
    method ToggleAccessory(index: nat, value: string, checked: bool)
      requires Valid() && index < |items|
      modifies this
      ensures Valid()
      ensures items == old(items)[index := old(items)[index].(accessories := Picked(Toggle(old(items)[index].accessories, value, checked)))]
      ensures settingsList == old(settingsList)
      ensures products == old(products) && settings == old(settings) && clients == old(clients)
      ensures files == old(files) && client == old(client)
    {
      var item := items[index];
      items := items[index := item.(accessories := Picked(Toggle(item.accessories, value, checked)))];
    }

    /** `handleQuickAdd(index, category)`. `answer` is what the prompt returns
        (`None` when dismissed) and `posted` whether the POST succeeded. With
        a known product and a non-empty answer, the value is added to the
        catalog scoped to that product, every item's options are resolved
        again, and the value is selected on item `index`. */
    method QuickAdd(index: nat, category: string, answer: Option<string>, posted: bool)
      returns (outcome: QuickAddOutcome)
      requires Valid() && index < |items|
      modifies this
      ensures Valid()
      ensures var product := FindProductByName(products, old(items)[index].productType);
              && (product.None? <==> outcome == NoProduct)
              && (product.Some? && (answer.None? || answer == Some("")) <==> outcome == Cancelled)
              && (outcome == Failed <==> product.Some? && answer.Some? && answer.value != "" && !posted)
              && (outcome == Added ==>
                    && settings == old(settings) + [Setting(category, answer.value, ForProduct(product.value.id))]
                    && items == old(items)[index := ApplyChange(old(items)[index], category, answer.value, products, settings).item])
      ensures outcome != Added ==> items == old(items) && settings == old(settings)
                                   && settingsList == old(settingsList)
      ensures products == old(products) && clients == old(clients)
      ensures files == old(files) && client == old(client)
    {
      var product := FindProductByName(products, items[index].productType);
      if product.None? {
        return NoProduct;
      }
      if answer.None? || answer.value == "" {
        return Cancelled;
      }
      if !posted {
        return Failed;
      }
      var value := answer.value;
      settings := settings + [Setting(category, value, ForProduct(product.value.id))];
      var change := ApplyChange(items[index], category, value, products, settings);
      items := items[index := change.item];
      settingsList := ResolveAll(items, products, settings);
      outcome := Added;
    }

    /** `handleClientSelect`: the empty choice clears the client fields, a
        known id copies that client's contact fields, an unknown id changes
        nothing. The `==` comparison is on the numeric value of the choice. */
    method SelectClient(selection: Option<int>)
      modifies this
      ensures selection.None? ==> client == NoClient
      ensures selection.Some? ==>
                match FindFirst(clients, HasId(selection.value))
                case Some(i) => client == ClientFieldsOf(clients[i])
                case None => client == old(client)
      ensures products == old(products) && settings == old(settings) && clients == old(clients)
      ensures items == old(items) && settingsList == old(settingsList) && files == old(files)
    {
      if selection.None? {
        client := NoClient;
        return;
      }
      var found := FindFirst(clients, HasId(selection.value));
      if found.Some? {
        client := ClientFieldsOf(clients[found.value]);
      }
    }
  }

  /** After a quick-add for a product-scoped value, the item it was added for
      is offered that value last in its category, after the values it was
      offered before. */
  lemma QuickAddOffersValue(products: seq<Product>, settings: seq<Setting>, productName: string,
                            category: string, value: string)
    requires FindProductByName(products, productName).Some?
    ensures var p := FindProductByName(products, productName).value;
            var before := Resolve(productName, products, settings);
            var after := Resolve(productName, products, settings + [Setting(category, value, ForProduct(p.id))]);
            && category in after
            && after[category] == (if category in before then before[category] else []) + [value]
            && (forall c :: c != category ==> (c in after <==> c in before))
            && (forall c :: c != category && c in after ==> after[c] == before[c])
  {
    var p := FindProductByName(products, productName).value;
    var x := Setting(category, value, ForProduct(p.id));
    assert Applies(x, FindProductByName(products, productName));
    ResolveAppend(productName, products, settings, x);
    var before := Resolve(productName, products, settings);
    assert Resolve(productName, products, settings + [x]) == Push(before, category, value);
  }

  /** Items whose product is not the one a quick-add was made for keep
      exactly the options they had. */
  lemma QuickAddLeavesOthers(products: seq<Product>, settings: seq<Setting>, otherName: string,
                             p: Product, category: string, value: string)
    requires var q := FindProductByName(products, otherName); q.None? || q.value.id != p.id
    ensures Resolve(otherName, products, settings + [Setting(category, value, ForProduct(p.id))])
            == Resolve(otherName, products, settings)
  {
    ResolveAppend(otherName, products, settings, Setting(category, value, ForProduct(p.id)));
  }
}
