/** The admin page's catalog views: the settings shown for the selected
    product and their grouping by category, product and category labels,
    the key derived for a new category, and the scope of a new setting. */
module Admin {
  import opened Wrappers
  import opened Seqs
  import opened Text
  import opened Catalog

  /** JavaScript truthiness of an optional id: `null` and `0` are falsy. */
  predicate Truthy(id: Option<int>) {
    id.Some? && id.value != 0
  }

  /** `s.product_id` is truthy. */
  predicate Scoped(s: Setting) {
    s.scope.ForProduct? && s.scope.productId != 0
  }

  /** `!s.product_id || s.product_id === selectedProductId`. */
  predicate ShownFor(s: Setting, selected: int) {
    !Scoped(s) || s.scope == ForProduct(selected)
  }

  function ShownForProduct(selected: int): Setting -> bool {
    (s: Setting) => ShownFor(s, selected)
  }

  /** `filteredSettings`: everything with no product selected; otherwise the
      settings without a product and those of the selected product, in order. */
  function FilteredSettings(settings: seq<Setting>, selected: Option<int>): (r: seq<Setting>)
    ensures !Truthy(selected) ==> r == settings
    ensures Truthy(selected) ==> forall x :: x in r <==> x in settings && ShownFor(x, selected.value)
    ensures |r| <= |settings|
  {
    if !Truthy(selected) then settings
    else
      var r := Filter(settings, ShownForProduct(selected.value));
      forall x
        ensures x in r <==> x in settings && ShownFor(x, selected.value)
      {
        FilterMembership(settings, ShownForProduct(selected.value), x);
      }
      r
  }

  /** The admin preview agrees with the job forms: for a selected product,
      and a catalog with no setting scoped to the falsy id 0, the admin lists
      exactly the settings the resolver applies to that product, in order. */
  lemma PreviewMatchesResolver(settings: seq<Setting>, p: Product)
    requires p.id != 0
    requires forall i :: 0 <= i < |settings| ==> settings[i].scope != ForProduct(0)
    ensures FilteredSettings(settings, Some(p.id)) == Filter(settings, AppliesTo(Some(p)))
  {
    FilterFilterAgree(settings, ShownForProduct(p.id), AppliesTo(Some(p)));
  }

  /** Two predicates that agree on a list filter it alike. */
  lemma {:induction false} FilterFilterAgree(s: seq<Setting>, p: Setting -> bool, q: Setting -> bool)
    requires forall i :: 0 <= i < |s| ==> p(s[i]) == q(s[i])
    ensures Filter(s, p) == Filter(s, q)
  {
    if s != [] {
      FilterFilterAgree(s[1..], p, q);
    }
  }

  function Identity(s: Setting): Setting {
    s
  }

  /** `groupedSettings`: the shown settings grouped by category. Each
      category that occurs is a key, and its group holds that category's
      settings in order; the groups together hold every shown setting. */
  function GroupedSettings(settings: seq<Setting>, selected: Option<int>): (r: map<string, seq<Setting>>)
    ensures forall c :: c in r <==> exists x :: x in FilteredSettings(settings, selected) && x.category == c
    ensures forall c :: c in r ==> r[c] == InCategory(FilteredSettings(settings, selected), c)
    ensures TotalSize(r) == |FilteredSettings(settings, selected)|
  {
    var shown := FilteredSettings(settings, selected);
    var r := GroupBy(shown, Identity);
    GroupSizesSum(shown, Identity);
    forall c | c in r
      ensures r[c] == InCategory(shown, c)
    {
      MapIdentity(InCategory(shown, c));
    }
    r
  }

  lemma MapIdentity(s: seq<Setting>)
    ensures Map(Identity, s) == s
  {
  }

  /** `getProductName(id)`: a falsy id means every product; otherwise the
      name of the first product with that id, or "Unknown Product". */
  function ProductName(id: Option<int>, products: seq<Product>): (r: string)
    ensures !Truthy(id) ==> r == "All Products"
    ensures Truthy(id) && (forall i :: 0 <= i < |products| ==> products[i].id != id.value) ==>
              r == "Unknown Product"
    ensures Truthy(id) ==> forall i :: 0 <= i < |products| && products[i].id == id.value
                                      && (forall j :: 0 <= j < i ==> products[j].id != id.value)
                                      ==> r == products[i].name
  {
    if !Truthy(id) then "All Products"
    else
      match FindFirst(products, (p: Product) => p.id == id.value)
      case None => "Unknown Product"
      case Some(i) => products[i].name
  }

  /** `categoryLabels`: each category name to its display name; a later
      category with the same name overrides an earlier one. */
  function CategoryLabels(categories: seq<Category>): (r: map<string, string>)
    ensures forall k :: k in r <==> exists i :: 0 <= i < |categories| && categories[i].name == k
    ensures forall k :: k in r ==> exists i :: 0 <= i < |categories| && categories[i].name == k
                                     && r[k] == categories[i].displayName
                                     && forall j :: i < j < |categories| ==> categories[j].name != k
  {
    if categories == [] then map[]
    else
      var init, last := categories[..|categories| - 1], categories[|categories| - 1];
      assert categories == init + [last];
      var acc := CategoryLabels(init);
      LabelsStep(init, last, acc);
      acc[last.name := last.displayName]
  }

  /** One step of the `reduce`: the last category's entry is set, the others
      keep their label. */
  lemma LabelsStep(init: seq<Category>, last: Category, acc: map<string, string>)
    requires forall k :: k in acc <==> exists i :: 0 <= i < |init| && init[i].name == k
    requires forall k :: k in acc ==> exists i :: 0 <= i < |init| && init[i].name == k
                                        && acc[k] == init[i].displayName
                                        && forall j :: i < j < |init| ==> init[j].name != k
    ensures var cs, r := init + [last], acc[last.name := last.displayName];
            && (forall k :: k in r <==> exists i :: 0 <= i < |cs| && cs[i].name == k)
            && (forall k :: k in r ==> exists i :: 0 <= i < |cs| && cs[i].name == k
                                         && r[k] == cs[i].displayName
                                         && forall j :: i < j < |cs| ==> cs[j].name != k)
  {
    var cs, r := init + [last], acc[last.name := last.displayName];
    forall k
      ensures k in r <==> exists i :: 0 <= i < |cs| && cs[i].name == k
    {
      if k in acc {
        var i :| 0 <= i < |init| && init[i].name == k;
        assert cs[i].name == k;
      }
      if k != last.name && exists i :: 0 <= i < |cs| && cs[i].name == k {
        var i :| 0 <= i < |cs| && cs[i].name == k;
        assert i < |init| && init[i].name == k;
      }
      assert cs[|init|] == last;
    }
    forall k | k in r
      ensures exists i :: 0 <= i < |cs| && cs[i].name == k && r[k] == cs[i].displayName
                          && forall j :: i < j < |cs| ==> cs[j].name != k
    {
      if k == last.name {
        assert cs[|init|] == last;
      } else {
        var i :| 0 <= i < |init| && init[i].name == k && acc[k] == init[i].displayName
                 && forall j :: i < j < |init| ==> init[j].name != k;
        assert cs[i] == init[i];
        assert forall j :: i < j < |cs| ==> cs[j].name != k;
      }
    }
  }

  /** `name.replace(/\s+/g, '_')`: every maximal run of whitespace becomes one
      underscore. */
  function Underscored(s: string): (r: string)
    ensures forall i :: 0 <= i < |r| ==> !IsWhitespace(r[i])
    ensures forall i :: 0 <= i < |r| ==> r[i] == '_' || r[i] in s
    ensures |r| <= |s|
    decreases |s|
  {
    if s == [] then []
    else if IsWhitespace(s[0]) then "_" + Underscored(DropWhitespace(s))
    else [s[0]] + Underscored(s[1..])
  }

  /** The string after its leading whitespace. */
  function DropWhitespace(s: string): (r: string)
    ensures |r| <= |s| && r == s[|s| - |r|..]
    ensures r == [] || !IsWhitespace(r[0])
    ensures |s| > 0 && IsWhitespace(s[0]) ==> |r| < |s|
  {
    if s != [] && IsWhitespace(s[0]) then DropWhitespace(s[1..]) else s
  }

  /** The key `addCategory` derives from a display name. */
  function CategoryKey(displayName: string): string {
    Underscored(Lower(displayName))
  }

  /** A text without whitespace passes through unchanged. */
  lemma {:induction false} UnderscoredPlain(s: string)
    requires forall i :: 0 <= i < |s| ==> !IsWhitespace(s[i])
    ensures Underscored(s) == s
  {
    if s != [] {
      UnderscoredPlain(s[1..]);
      assert s == [s[0]] + s[1..];
    }
  }

  /** A whitespace-free prefix passes through unchanged. */
  lemma {:induction false} UnderscoredPrefix(a: string, t: string)
    requires forall i :: 0 <= i < |a| ==> !IsWhitespace(a[i])
    ensures Underscored(a + t) == a + Underscored(t)
  {
    if a == [] {
      assert a + t == t;
    } else {
      UnderscoredStep(a, t);
      UnderscoredPrefix(a[1..], t);
      assert a == [a[0]] + a[1..];
    }
  }

  /** A first character that is not whitespace is kept. */
  lemma UnderscoredStep(a: string, t: string)
    requires a != [] && !IsWhitespace(a[0])
    ensures Underscored(a + t) == [a[0]] + Underscored(a[1..] + t)
  {
    var s := a + t;
    assert s[0] == a[0];
    assert s[1..] == a[1..] + t;
  }

  /** A key is already a key: deriving it again changes nothing. */
  lemma CategoryKeyIdempotent(displayName: string)
    ensures CategoryKey(CategoryKey(displayName)) == CategoryKey(displayName)
  {
    var k := CategoryKey(displayName);
    LowerPlain(k);
    UnderscoredPlain(Lower(k));
    LowerIdempotent(Underscored(Lower(displayName)));
  }

  /** Lower-casing keeps whitespace and non-whitespace apart. */
  lemma LowerPlain(s: string)
    requires forall i :: 0 <= i < |s| ==> !IsWhitespace(s[i])
    ensures forall i :: 0 <= i < |Lower(s)| ==> !IsWhitespace(Lower(s)[i])
  {
  }

  /** Lower-cased text has no upper-case letters left. */
  lemma LowerIdempotent(s: string)
    requires forall i :: 0 <= i < |s| ==> !('A' <= s[i] <= 'Z')
    ensures Lower(s) == s
  {
  }

  /** Words with the whitespace run `runs[i]` between `words[i]` and
      `words[i + 1]`. */
  function Spaced(words: seq<string>, runs: seq<string>): string
    requires |words| == |runs| + 1
  {
    if |runs| == 0 then words[0] else words[0] + runs[0] + Spaced(words[1..], runs[1..])
  }

  /** A display name split at its maximal whitespace runs: the runs are
      non-empty and all whitespace, the words hold no whitespace, and only
      the first and the last word (before a leading run, after a trailing
      one) may be empty. */
  predicate WordsAndRuns(words: seq<string>, runs: seq<string>) {
    && |words| == |runs| + 1
    && (forall i :: 0 <= i < |runs| ==> |runs[i]| > 0 && IsBlank(runs[i]))
    && (forall i, j :: 0 <= i < |words| && 0 <= j < |words[i]| ==> !IsWhitespace(words[i][j]))
    && (forall i :: 0 < i < |words| - 1 ==> |words[i]| > 0)
  }

  /** Each maximal whitespace run, of any length and at either end too,
      becomes one underscore, and the words are lower-cased. */
  lemma CategoryKeyOfWords(words: seq<string>, runs: seq<string>)
    requires WordsAndRuns(words, runs)
    ensures CategoryKey(Spaced(words, runs)) == Join(Map(Lower, words), "_")
  {
    LowerSpaced(words, runs);
    LowerKeepsRuns(words, runs);
    UnderscoredRuns(Map(Lower, words), Map(Lower, runs));
  }

  /** Lower-casing a spaced text lower-cases its words and keeps its runs. */
  lemma {:induction false} LowerSpaced(words: seq<string>, runs: seq<string>)
    requires WordsAndRuns(words, runs)
    ensures Lower(Spaced(words, runs)) == Spaced(Map(Lower, words), Map(Lower, runs))
  {
    if |runs| > 0 {
      LowerSpaced(words[1..], runs[1..]);
      assert Map(Lower, words)[1..] == Map(Lower, words[1..]);
      assert Map(Lower, runs)[1..] == Map(Lower, runs[1..]);
      LowerAppend(words[0] + runs[0], Spaced(words[1..], runs[1..]));
      LowerAppend(words[0], runs[0]);
    }
  }

  /** Lower-casing keeps whitespace and non-whitespace apart. */
  lemma LowerKeepsRuns(words: seq<string>, runs: seq<string>)
    requires WordsAndRuns(words, runs)
    ensures WordsAndRuns(Map(Lower, words), Map(Lower, runs))
  {
  }

  lemma LowerAppend(a: string, b: string)
    ensures Lower(a + b) == Lower(a) + Lower(b)
  {
  }

  /** Underscoring a spaced text joins its words with single underscores. */
  lemma {:induction false} UnderscoredRuns(words: seq<string>, runs: seq<string>)
    requires WordsAndRuns(words, runs)
    ensures Underscored(Spaced(words, runs)) == Join(words, "_")
  {
    if |runs| == 0 {
      UnderscoredPlain(words[0]);
    } else {
      var rest := Spaced(words[1..], runs[1..]);
      UnderscoredRuns(words[1..], runs[1..]);
      SpacedStart(words[1..], runs[1..]);
      assert WordsAndRuns(words[1..], runs[1..]);
      UnderscoredRun(words[0], runs[0], rest);
    }
  }

  /** The text after a run starts with the next word, which is not empty
      unless it is the last one. */
  lemma SpacedStart(words: seq<string>, runs: seq<string>)
    requires |words| == |runs| + 1
    requires forall j :: 0 <= j < |words[0]| ==> !IsWhitespace(words[0][j])
    requires |runs| > 0 ==> |words[0]| > 0
    ensures Spaced(words, runs) == [] || !IsWhitespace(Spaced(words, runs)[0])
  {
  }

  /** Leading whitespace of any length is dropped up to the next character. */
  lemma {:induction false} DropRun(ws: string, rest: string)
    requires IsBlank(ws)
    requires rest == [] || !IsWhitespace(rest[0])
    ensures DropWhitespace(ws + rest) == rest
  {
    if ws == [] {
      assert ws + rest == rest;
    } else {
      var s := ws + rest;
      assert s[0] == ws[0] && IsWhitespace(ws[0]);
      assert s[1..] == ws[1..] + rest;
      assert IsBlank(ws[1..]);
      DropRun(ws[1..], rest);
    }
  }

  /** A non-empty whitespace run after a whitespace-free word becomes one
      underscore. */
  lemma UnderscoredRun(w: string, ws: string, rest: string)
    requires forall i :: 0 <= i < |w| ==> !IsWhitespace(w[i])
    requires |ws| > 0 && IsBlank(ws)
    requires rest == [] || !IsWhitespace(rest[0])
    ensures Underscored(w + ws + rest) == w + "_" + Underscored(rest)
  {
    DropRun(ws, rest);
    assert (ws + rest)[0] == ws[0];
    UnderscoredPrefix(w, ws + rest);
    assert w + ws + rest == w + (ws + rest);
  }

  /** `addCategory`: an empty display name submits nothing; otherwise the
      category is posted with the derived key. */
  function NewCategory(displayName: string): (r: Option<Category>)
    ensures r.None? <==> displayName == ""
    ensures r.Some? ==> r.value.displayName == displayName
    ensures r.Some? ==> r.value.name == CategoryKey(displayName)
    ensures r.Some? ==> forall i :: 0 <= i < |r.value.name| ==> !IsWhitespace(r.value.name[i])
  {
    if displayName == "" then None else Some(Category(CategoryKey(displayName), displayName))
  }

  /** `newSetting.product_id || null`: the form's product choice is `''`
      (`None`) or an id, and a falsy choice makes the setting universal. */
  function NewSettingScope(choice: Option<int>): (r: Scope)
    ensures r == Universal <==> !Truthy(choice)
    ensures Truthy(choice) ==> r == ForProduct(choice.value)
  {
    if Truthy(choice) then ForProduct(choice.value) else Universal
  }

  /** A setting added while a product is selected, for that product or for
      all products, is listed last in that product's view. */
  lemma AddedSettingShown(settings: seq<Setting>, category: string, value: string,
                          choice: Option<int>, selected: int)
    requires selected != 0
    requires !Truthy(choice) || choice.value == selected
    ensures var x := Setting(category, value, NewSettingScope(choice));
            FilteredSettings(settings + [x], Some(selected)) == FilteredSettings(settings, Some(selected)) + [x]
  {
    var x := Setting(category, value, NewSettingScope(choice));
    FilterAppend(settings, [x], ShownForProduct(selected));
  }
}
