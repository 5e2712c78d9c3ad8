/** The catalog (products, categories, option settings) and the option
    resolver `groupSettingsForProduct`, which NewJob.jsx and EditJob.jsx
    define identically: keep the settings that are universal or scoped to the
    named product, then group their values by category in list order. */
module Catalog {
  import opened Wrappers
  import opened Seqs

  datatype Product = Product(id: int, name: string)

  /** A setting's `product_id`: `null` makes it apply to every product. */
  datatype Scope = Universal | ForProduct(productId: int)

  /** One option value of a category (`{category, value, product_id}`). */
  datatype Setting = Setting(category: string, value: string, scope: Scope)

  /** A category: `name` is the machine key, `displayName` the label. */
  datatype Category = Category(name: string, displayName: string)

  /** A resolved option set: category name to the values offered, in catalog order. */
  type Options = map<string, seq<string>>

  /** `allProds.find(p => p.name === productName)`. */
  function FindProductByName(products: seq<Product>, name: string): (r: Option<Product>)
    ensures r.None? <==> forall i :: 0 <= i < |products| ==> products[i].name != name
    ensures r.Some? ==> exists i :: 0 <= i < |products| && products[i] == r.value
                         && r.value.name == name
                         && forall j :: 0 <= j < i ==> products[j].name != name
  {
    match FindFirst(products, (p: Product) => p.name == name)
    case None => None
    case Some(i) => Some(products[i])
  }

  /** `s.product_id === null || s.product_id === productId`, where `productId`
      is `null` when no product was found. */
  predicate Applies(s: Setting, product: Option<Product>) {
    s.scope == Universal || (product.Some? && s.scope == ForProduct(product.value.id))
  }

  function AppliesTo(product: Option<Product>): Setting -> bool {
    (s: Setting) => Applies(s, product)
  }

  function CategoryIs(c: string): Setting -> bool {
    (s: Setting) => s.category == c
  }

  function IsUniversal(s: Setting): bool {
    s.scope == Universal
  }

  function ValueOf(s: Setting): string {
    s.value
  }

  /** The settings of category `c`, in list order. */
  function InCategory(s: seq<Setting>, c: string): seq<Setting> {
    Filter(s, CategoryIs(c))
  }

  /** `m` with `v` pushed onto the list of `c`, creating the list if absent. */
  function Push<T>(m: map<string, seq<T>>, c: string, v: T): map<string, seq<T>> {
    m[c := (if c in m then m[c] else []) + [v]]
  }

  /** The `reduce` that groups settings by category: `proj(x)` is pushed onto
      the list of `x.category`, in list order. A category is a key exactly when
      some setting has it, and its list holds the projections of that
      category's settings in order, duplicates included. */
  function GroupBy<T>(s: seq<Setting>, proj: Setting -> T): (r: map<string, seq<T>>)
    ensures forall c :: c in r <==> exists x :: x in s && x.category == c
    ensures forall c :: c in r ==> r[c] == Map(proj, InCategory(s, c))
    ensures forall c :: c in r ==> |r[c]| > 0
  {
    if s == [] then map[]
    else
      var init, x := s[..|s| - 1], s[|s| - 1];
      assert s == init + [x];
      var acc := GroupBy(init, proj);
      GroupByStep(init, x, proj, acc);
      Push(acc, x.category, proj(x))
  }

  /** One step of the `reduce`: pushing the last setting keeps the grouping
      exact for the longer list. */
  lemma GroupByStep<T>(init: seq<Setting>, x: Setting, proj: Setting -> T, acc: map<string, seq<T>>)
    requires forall c :: c in acc <==> exists y :: y in init && y.category == c
    requires forall c :: c in acc ==> acc[c] == Map(proj, InCategory(init, c))
    ensures var r := Push(acc, x.category, proj(x));
            && (forall c :: c in r <==> exists y :: y in init + [x] && y.category == c)
            && (forall c :: c in r ==> r[c] == Map(proj, InCategory(init + [x], c)))
  {
    forall c
      ensures c in Push(acc, x.category, proj(x)) <==> exists y :: y in init + [x] && y.category == c
    {
      GroupByKeyStep(init, x, proj, acc, c);
    }
    forall c | c in Push(acc, x.category, proj(x))
      ensures Push(acc, x.category, proj(x))[c] == Map(proj, InCategory(init + [x], c))
    {
      GroupByValueStep(init, x, proj, acc, c);
    }
  }

  lemma GroupByKeyStep<T>(init: seq<Setting>, x: Setting, proj: Setting -> T, acc: map<string, seq<T>>, c: string)
    requires c in acc <==> exists y :: y in init && y.category == c
    ensures c in Push(acc, x.category, proj(x)) <==> exists y :: y in init + [x] && y.category == c
  {
    if c in acc {
      var y :| y in init && y.category == c;
      assert y in init + [x];
    }
    if c != x.category && (exists y :: y in init + [x] && y.category == c) {
      var y :| y in init + [x] && y.category == c;
      assert y in init;
    }
  }

  lemma GroupByValueStep<T>(init: seq<Setting>, x: Setting, proj: Setting -> T, acc: map<string, seq<T>>, c: string)
    requires c in acc <==> exists y :: y in init && y.category == c
    requires c in acc ==> acc[c] == Map(proj, InCategory(init, c))
    requires c in Push(acc, x.category, proj(x))
    ensures Push(acc, x.category, proj(x))[c] == Map(proj, InCategory(init + [x], c))
  {
    FilterAppend(init, [x], CategoryIs(c));
    var one := Filter([x], CategoryIs(c));
    assert one == if x.category == c then [x] else [];
    if c == x.category {
      var before := if c in acc then acc[c] else [];
      if c !in acc {
        forall i | 0 <= i < |init|
          ensures !CategoryIs(c)(init[i])
        {
          assert init[i] in init;
        }
      }
      assert before == Map(proj, InCategory(init, c));
      MapAppend(proj, InCategory(init, c), [x]);
    } else {
      assert InCategory(init + [x], c) == InCategory(init, c);
    }
  }

  /** The total length of all the lists of a grouping. */
  ghost function TotalSize<T>(m: map<string, seq<T>>): nat
    decreases |m|
  {
    if |m| == 0 then 0
    else
      var k :| k in m;
      |m[k]| + TotalSize(m - {k})
  }

  /** Removing a key shrinks a map by one. */
  lemma MinusOne<T>(m: map<string, seq<T>>, k: string)
    requires k in m
    ensures |m - {k}| == |m| - 1
  {
    assert (m - {k}).Keys == m.Keys - {k};
  }

  /** The key `TotalSize` takes first. */
  lemma Pick<T>(m: map<string, seq<T>>) returns (k': string)
    requires |m| > 0
    ensures k' in m && TotalSize(m) == |m[k']| + TotalSize(m - {k'})
  {
    k' :| k' in m && TotalSize(m) == |m[k']| + TotalSize(m - {k'});
  }

  /** `TotalSize` does not depend on which key is taken first. */
  lemma {:induction false} TotalSizeRemove<T>(m: map<string, seq<T>>, k: string)
    requires k in m
    ensures TotalSize(m) == |m[k]| + TotalSize(m - {k})
    decreases |m|
  {
    MinusOne(m, k);
    var k' := Pick(m);
    if k' != k {
      MinusOne(m, k');
      var a, b := m - {k'}, m - {k};
      assert k in a && k' in b;
      TotalSizeRemove(a, k);
      TotalSizeRemove(b, k');
      assert a - {k} == b - {k'};
      assert a[k] == m[k] && b[k'] == m[k'];
    }
  }

  /** Pushing one value grows the total by one. */
  lemma TotalSizePush<T>(m: map<string, seq<T>>, c: string, v: T)
    ensures TotalSize(Push(m, c, v)) == TotalSize(m) + 1
  {
    TotalSizeRemove(Push(m, c, v), c);
    if c in m {
      TotalSizeRemove(m, c);
      PushedRest(m, c, v);
    } else {
      FreshRest(m, c, v);
    }
  }

  /** Pushing onto `c` leaves the other lists alone. */
  lemma PushedRest<T>(m: map<string, seq<T>>, c: string, v: T)
    ensures Push(m, c, v) - {c} == m - {c}
  {
  }

  /** Pushing onto a new key `c` only adds that key. */
  lemma FreshRest<T>(m: map<string, seq<T>>, c: string, v: T)
    requires c !in m
    ensures Push(m, c, v) - {c} == m
  {
  }

  /** The group sizes add up to the number of grouped settings: nothing is
      lost and nothing is counted twice. */
  lemma {:induction false} GroupSizesSum<T>(s: seq<Setting>, proj: Setting -> T)
    ensures TotalSize(GroupBy(s, proj)) == |s|
  {
    if s != [] {
      var init, x := s[..|s| - 1], s[|s| - 1];
      GroupSizesSum(init, proj);
      TotalSizePush(GroupBy(init, proj), x.category, proj(x));
    }
  }

  /** `groupSettingsForProduct(productName, allProds, allOpts)`. */
  function Resolve(productName: string, products: seq<Product>, settings: seq<Setting>): Options {
    GroupBy(Filter(settings, AppliesTo(FindProductByName(products, productName))), ValueOf)
  }

  /** What the resolver offers for category `c`: present exactly when some
      applicable setting has category `c`, and then the values of the
      applicable settings of `c` in catalog order, duplicates kept. */
  lemma ResolveSpec(productName: string, products: seq<Product>, settings: seq<Setting>, c: string)
    ensures var product := FindProductByName(products, productName);
            var r := Resolve(productName, products, settings);
            && (c in r <==> exists x :: x in settings && x.category == c && Applies(x, product))
            && (c in r ==> r[c] == Map(ValueOf, Filter(settings, (x: Setting) => Applies(x, product) && x.category == c)))
  {
    var product := FindProductByName(products, productName);
    var kept := Filter(settings, AppliesTo(product));
    forall x | x in settings && x.category == c && Applies(x, product)
      ensures x in kept
    {
      FilterMembership(settings, AppliesTo(product), x);
    }
    forall x | x in kept
      ensures x in settings && Applies(x, product)
    {
      FilterMembership(settings, AppliesTo(product), x);
    }
    FilterFilter(settings, AppliesTo(product), CategoryIs(c), (x: Setting) => Applies(x, product) && x.category == c);
  }

  /** A product name that names no product gets exactly the universal settings. */
  lemma UnknownProductGetsUniversal(productName: string, products: seq<Product>, settings: seq<Setting>)
    requires forall i :: 0 <= i < |products| ==> products[i].name != productName
    ensures Resolve(productName, products, settings) == GroupBy(Filter(settings, IsUniversal), ValueOf)
  {
    FilterExtensional(settings, AppliesTo(None), IsUniversal);
  }

  /** The resolved lists together hold one value per applicable setting. */
  lemma ResolveSizes(productName: string, products: seq<Product>, settings: seq<Setting>)
    ensures TotalSize(Resolve(productName, products, settings))
            == |Filter(settings, AppliesTo(FindProductByName(products, productName)))|
  {
    GroupSizesSum(Filter(settings, AppliesTo(FindProductByName(products, productName))), ValueOf);
  }

  /** Appending a setting to the catalog appends its value to the end of its
      category for every product it applies to, and changes nothing for any
      other product. */
  lemma ResolveAppend(productName: string, products: seq<Product>, settings: seq<Setting>, x: Setting)
    ensures var product := FindProductByName(products, productName);
            Resolve(productName, products, settings + [x])
            == if Applies(x, product) then Push(Resolve(productName, products, settings), x.category, x.value)
               else Resolve(productName, products, settings)
  {
    var p := AppliesTo(FindProductByName(products, productName));
    FilterAppend(settings, [x], p);
    var f := Filter(settings, p);
    if p(x) {
      assert (f + [x])[..|f|] == f;
    } else {
      assert Filter(settings + [x], p) == f;
    }
  }
}
