# Print-shop job console: a Dafny model of the front end's logic

The console is a React front end that a print shop uses to take job orders,
follow them through production and keep its catalog of products and options.
This project models the logic behind its pages and proves properties about it.
The network, the browser and rendering are not modelled.

- **Option catalog** (`catalog.dfy`). Each product offers options, grouped by
  category. A setting belongs to one product or to all of them. The module
  resolves the grouped options for a product name.
- **Line items** (`line_items.dfy`). One item of a job order, with its 15 core
  fields and its custom fields. The module covers:
  - a fresh item, and the routing of a field change;
  - resetting the option fields after a product change;
  - the accessory checkboxes;
  - re-keying the per-item file map when an item is removed.
- **Wire format** (`wire.dfy`). How the edit form loads a stored item and how
  both forms clean items for submission. Amounts switch between `0` and `''`.
  Accessories travel as a `", "`-joined string.
- **Job forms** (`job_form.dfy`). The NewJob/EditJob form state as a class
  (`Editor`) whose handlers update it in place. The class invariant is that
  there is one resolved options entry per item, and it holds for the current
  catalog.
- **Dashboard** (`deadlines.dfy`, `dashboard.dfy`). The statistics, the job
  table filters, and the critical-deadline list sorted by due day. Also the
  deadline labels and the six-card limit.
- **Sidebar notifications** (`notifications.dfy`). The critical-job list and
  count, held by a class.
- **Dates** (`date_format.dfy`). The date-only branch of `formatDate` and the
  12-hour clock on the job details page.
- **Job details** (`job_details.dfy`). The item and quantity totals, which use
  JavaScript `+`. Also the printing line, the custom-field labels and the
  shown amounts.
- **Admin** (`admin.dfy`). The settings preview for a product, its grouping,
  the product and category labels, and the key a new category gets. Also the
  scope of a new setting.
- **Clients** (`clients.dfy`). The client search, and deleting a client from
  the list, as a class.
- **Status badge** (`status_badge.dfy`). The CSS class chosen for a status.
- **Helpers.** `seqs.dfy`, `text.dfy` and `wrappers.dfy` hold generic sequence
  and text helpers with their lemmas: filter, split/join, lower-casing, and
  decimal text.

JavaScript values a form field can hold are modelled as `Value = Str | Num |
Missing`. Falsiness, `||` defaults and `+` follow JavaScript on those three
kinds. Results the browser or the server supplies become parameters:
- fetched lists, and whether a POST succeeded;
- the answer to `window.prompt`, and whether `window.confirm` was accepted;
- today's day number.

Where the code and the intended behaviour read differently, the model follows
the code:
- In Admin, the product selection and the new setting's `product_id` are tested
  for truthiness (`src/pages/Admin.jsx:112`, `:226`, `:236`). So a product id of
  `0` behaves like "all products": the preview shows every setting, and a new
  setting becomes universal. `Admin.Truthy` models this.
- `Admin.PreviewMatchesResolver` proves that the preview agrees with the form's
  resolver only for non-zero ids, and only on catalogs with no setting scoped
  to the id `0`.

## Model

| member | source | states |
|---|---|---|
| Catalog.FindProductByName | src/pages/NewJob.jsx:147 | `find` by name. The result is absent iff no product has the name; otherwise it is the first product with that name. |
| Catalog.GroupBy | src/pages/NewJob.jsx:151-155 | The grouping reduce. A category is a key iff some setting has it; each group is the projection of that category's settings, in input order, and is never empty. |
| Catalog.GroupSizesSum | src/pages/NewJob.jsx:151-155 | Grouping loses and duplicates nothing: the group sizes add up to the number of settings. |
| Catalog.ResolveSpec | src/pages/NewJob.jsx:146-156 | `groupSettingsForProduct`. A category is offered iff some setting applies to the named product (universal or scoped to it) and has that category; its values are those settings' values, in catalog order. |
| Catalog.UnknownProductGetsUniversal | src/pages/NewJob.jsx:147-149 | An unknown product name is offered exactly the universal settings. |
| Catalog.ResolveSizes | src/pages/NewJob.jsx:149-155 | The number of values offered equals the number of settings that apply to the product. |
| Catalog.ResolveAppend | src/pages/NewJob.jsx:282-288 | Appending a setting to the catalog appends its value to its category when it applies to the product, and changes nothing otherwise. |
| LineItems.FieldNamed | src/pages/NewJob.jsx:160-167 | Routing of a field name: one of the 15 core fields, or a custom field. Any field found carries exactly that name. |
| LineItems.FieldNamedName | src/pages/NewJob.jsx:160 | Every core field's name routes back to that field, so the 15 names are distinct. |
| LineItems.DefaultFor | src/pages/NewJob.jsx:176-183 | `opts[name]?.[0] \|\| fallback`. The fallback applies iff the category has no values or its first value is empty (`''` is falsy); otherwise the result is the first value. |
| LineItems.FirstProductName | src/pages/NewJob.jsx:99-100 | `products[0]?.name \|\| ''`. |
| LineItems.NewItem | src/pages/NewJob.jsx:104-122 | A new item has the first product, and each option field set to its default from the resolved options. Amounts are empty, accessories are an empty list, and there are no custom fields. |
| LineItems.SetField | src/pages/NewJob.jsx:162-167 | A core field name sets that field and leaves every other field alone. Any other name writes `custom_fields[name]`. |
| LineItems.ResetOptions | src/pages/NewJob.jsx:176-184 | After a product change, each option field is reset to its default and `additional_info` is emptied. Quantity, amounts, variable data, accessories and custom fields are kept. |
| LineItems.DefaultsAreOffered | src/pages/NewJob.jsx:176-183 | Each reset value is either a value offered for the field or the field's fallback. |
| LineItems.ResetIdempotent | src/pages/NewJob.jsx:169-185 | Resetting twice with the same options is the same as resetting once. |
| LineItems.ApplyChange | src/pages/NewJob.jsx:158-188 | `handleItemChange` on one item. A non-product field is only set. A product change resolves the new product's options, and the item is the set item reset to those options. |
| LineItems.ProductChangeKeeps | src/pages/NewJob.jsx:169-185 | A product change keeps quantity, amounts, variable data, accessories and custom fields. Every option field becomes its default for the new product. |
| LineItems.Toggle | src/pages/NewJob.jsx:190-200 | Ticking appends the value. Unticking removes every copy of it and keeps all other values, in order and with their multiplicities. |
| LineItems.ToggleOnOff | src/pages/NewJob.jsx:190-200 | Ticking then unticking a value that was not selected restores the original list. |
| LineItems.Reindexed | src/pages/NewJob.jsx:133-143 | After removing item `index`, each new key `k` holds exactly the file of its source key: `k` below `index`, `k + 1` from `index` on. The removed item's files are dropped. |
| LineItems.ReindexedCases | src/pages/NewJob.jsx:136-141 | Files below `index` keep their key, and a file at key `k + 1` from `index` on moves down to `k`. No other key appears. |
| LineItems.ReindexedSize | src/pages/NewJob.jsx:133-143 | Re-keying drops exactly one entry when the removed item had files, and none otherwise. |
| Wire.LoadAmount | src/pages/EditJob.jsx:89-90 | A stored `0` loads as `''`. Any other amount is kept. |
| Wire.SubmitAmount | src/pages/NewJob.jsx:242-243 | An empty amount is sent as `0`. Any other amount is kept. |
| Wire.AmountRoundTrips | src/pages/EditJob.jsx:89-90 | Submit then load gives back every amount except `0`. Load then submit gives back every stored amount except `''`. |
| Wire.LoadAccessories | src/pages/EditJob.jsx:82 | Missing or empty accessories load as no values. Otherwise they are split on `", "`. |
| Wire.AccessoriesRoundTrip | src/pages/NewJob.jsx:244 | A storable list, once joined for submission, loads back as the same list. A list is storable when it is empty, or when it is not `[""]` and none of its values contains `", "`. |
| Wire.AccessoriesLoadJoin | src/pages/EditJob.jsx:82 | Loading then joining gives back any stored accessory string. |
| Wire.LoadItem | src/pages/EditJob.jsx:80-92 | The edit form's load of a stored item. Accessories are split, amounts normalised, and the text fields and custom fields defaulted. |
| Wire.SubmitAccessories | src/pages/EditJob.jsx:242 | Lists are joined. A string is kept by the edit form's `Array.isArray` check and cannot be joined by the new-job form. |
| Wire.CleanItem | src/pages/NewJob.jsx:240-245 | The submitted item has its amounts normalised and its accessories joined. Every other field is unchanged. |
| Wire.CleanItems | src/pages/EditJob.jsx:238-243 | Every item is cleaned, in order. |
| Wire.EditJobCleansAll | src/pages/EditJob.jsx:242 | The edit form's submission never fails on the accessories. |
| Wire.SaveThenLoad | src/pages/EditJob.jsx:80-92 | An item with storable accessories and non-zero amounts survives submit then load unchanged. |
| Wire.LoadThenSave | src/pages/EditJob.jsx:238-243 | A stored item with all fields present and non-empty amounts survives load then submit unchanged. |
| JobForm.ClientFieldsOf | src/pages/NewJob.jsx:209-219 | The contact fields copied from a selected client. Missing ones become `''`. |
| JobForm.ResolveAll | src/pages/EditJob.jsx:96-99 | One options entry per item, resolved for that item's product. |
| JobForm.ResolveAllUpdate | src/pages/NewJob.jsx:169-173 | Changing one item's product changes only that item's options entry. |
| JobForm.ReindexFiles | src/pages/NewJob.jsx:134-143 | The `forEach` re-keying loop. It computes exactly the re-keyed map. |
| JobForm.Editor.NewJob | src/pages/NewJob.jsx:42-93 | After mount: the fetched catalogs and one fresh item for the first product. An empty form when the fetch fails. No files and no client are selected. |
| JobForm.Editor.EditJob | src/pages/EditJob.jsx:40-110 | After load: the fetched products, settings and clients, each stored item loaded in order, and one resolved options entry per item. A failed fetch leaves the catalogs and items empty. A missing job leaves no items. |
| JobForm.Editor.AddItem | src/pages/NewJob.jsx:95-126 | Appends a fresh item for the first product, together with its resolved options. Nothing else changes. |
| JobForm.Editor.RemoveItem | src/pages/EditJob.jsx:154-158 | The last remaining item cannot be removed. Otherwise the item and its options entry are removed together. |
| JobForm.Editor.RemoveItemWithFiles | src/pages/NewJob.jsx:128-144 | As `RemoveItem`, and the file map is re-keyed to the new indices. |
| JobForm.Editor.ChangeField | src/pages/NewJob.jsx:158-188 | Applies the change to item `index`. Only a product change replaces that item's options entry; the invariant is kept. |
| JobForm.Editor.SelectCustomOption | src/pages/NewJob.jsx:617-621 | Sets one custom field of item `index`. Nothing else changes. |
| JobForm.Editor.ToggleAccessory | src/pages/NewJob.jsx:190-200 | Item `index`'s accessories become the toggled list. Nothing else changes. |
| JobForm.Editor.QuickAdd | src/pages/NewJob.jsx:263-299 | A missing product, an empty answer and a failed POST change nothing, and each is reported as such. A success appends a setting scoped to the product, re-resolves every item and selects the value on item `index`. |
| JobForm.Editor.SelectClient | src/pages/NewJob.jsx:202-221 | The empty choice clears the client. A known id copies the first client with that id. An unknown id changes nothing. Items are never touched. |
| JobForm.QuickAddOffersValue | src/pages/NewJob.jsx:276-288 | After a quick-add, the product is offered the new value last in its category. Every other category is unchanged. |
| JobForm.QuickAddLeavesOthers | src/pages/NewJob.jsx:283-286 | Items for other products keep exactly their options. |
| Clients.FilteredClients | src/pages/Clients.jsx:38-42 | A client is listed iff it is in the list and matches the term on its name, company or phone. |
| Clients.EmptyTermKeepsAll | src/pages/Clients.jsx:38-42 | An empty search lists every client, in order. |
| Clients.FilteredKeepsOrder | src/pages/Clients.jsx:38-42 | The search keeps list order: filtering a concatenation concatenates the filtered parts. |
| Clients.WithoutClient | src/pages/Clients.jsx:31 | Exactly the clients with that id are removed. All others keep their multiplicity. |
| Clients.DeleteUnknownId | src/pages/Clients.jsx:31 | Deleting an id nobody has leaves the list unchanged. |
| Clients.ClientDirectory.constructor | src/pages/Clients.jsx:16-25 | The directory holds the fetched clients. |
| Clients.ClientDirectory.HandleDelete | src/pages/Clients.jsx:27-36 | The list changes only when the delete is confirmed and the request succeeds. It then loses exactly that client. |
| Deadlines.Critical | src/pages/Dashboard.jsx:127-136 | A job is critical iff it has a due date, is not Completed or Dispatched, and is due within 7 days (overdue included). The kept jobs stay in fetch order. |
| Deadlines.CriticalCases | src/pages/Dashboard.jsx:128-136 | A job without a due date, or a closed job, is never critical. Otherwise it is critical iff its day difference is at most 7. |
| Deadlines.InsertByDue | src/pages/Dashboard.jsx:137 | Inserting into a list sorted by due day keeps it sorted and adds exactly the job. |
| Deadlines.SortByDue | src/pages/Dashboard.jsx:137 | The sort gives a list sorted by due day that is a permutation of its input. |
| Deadlines.InsertKeepsTies | src/pages/Dashboard.jsx:137 | Insertion places a job in front of the jobs due the same day, which is what keeps the insertion sort stable, since it inserts each head into the sorted tail. |
| Deadlines.SortIsStable | src/pages/Dashboard.jsx:137 | Jobs due the same day keep their fetch order (`Array.prototype.sort` is stable). |
| Deadlines.UpcomingJobs | src/pages/Dashboard.jsx:127-137 | The upcoming list is sorted by due day and holds exactly the critical jobs, with their multiplicities. |
| Dashboard.ComputeStats | src/pages/Dashboard.jsx:67-71 | `total` counts all jobs and `completed` counts the Completed or Dispatched ones. `active` counts exactly the others, so it is never negative. |
| Dashboard.FilteredJobs | src/pages/Dashboard.jsx:112-125 | A job is listed iff it passes all four filters. With a status chosen, every listed job has that status. |
| Dashboard.NoFiltersKeepsAll | src/pages/Dashboard.jsx:112-125 | With no search, status, created date or due date chosen, every job is listed, in order. |
| Dashboard.FilteredKeepsOrder | src/pages/Dashboard.jsx:112-125 | The filter keeps table order. |
| Dashboard.StatusOnly | src/pages/Dashboard.jsx:118 | With only a status chosen, the table lists exactly the jobs with that status. |
| Dashboard.DueLabel | src/pages/Dashboard.jsx:226 | The label reads "… Days Overdue" iff the job is overdue. |
| Dashboard.DueLabelInjective | src/pages/Dashboard.jsx:226 | Different day differences never get the same label. |
| Dashboard.VisibleCards | src/pages/Dashboard.jsx:183 | At most six cards are shown: the first six upcoming jobs. |
| Dashboard.MoreNote | src/pages/Dashboard.jsx:233-235 | The "And N more" note appears iff there are over six upcoming jobs. N is positive, and the cards plus N account for every job. |
| Notifications.NotificationCenter.constructor | src/context/NotificationContext.jsx:10-11 | No notifications and a count of 0. |
| Notifications.NotificationCenter.Fetch | src/context/NotificationContext.jsx:13-33 | A successful fetch sets the list to the critical jobs and the count to its length. A failure leaves both unchanged. The count always equals the list length. |
| Notifications.SidebarMatchesDashboard | src/context/NotificationContext.jsx:18-26 | The sidebar's list holds the same jobs as the Dashboard's upcoming list, so the badge count equals the Dashboard's number of critical jobs. |
| DateFormat.FormatDate | src/pages/Dashboard.jsx:20-27 | A missing or empty input shows `N/A`. Only an input that is non-empty and not date-only goes to the timestamp branch. |
| DateFormat.FormatYearMonthDay | src/pages/JobDetails.jsx:17-24 | `Y-M-D` is shown as `D/M/Y`. |
| DateFormat.FormatDateInvertible | src/pages/Dashboard.jsx:23-27 | A date-only text of three parts can be read back from its display. |
| DateFormat.Hour12 | src/pages/JobDetails.jsx:42-43 | The 12-hour hour is in 1..12 and agrees with the hour modulo 12. |
| DateFormat.Hour12RoundTrip | src/pages/JobDetails.jsx:40-43 | The hour and the AM/PM suffix give back the hour of the day. |
| DateFormat.Minutes | src/pages/JobDetails.jsx:44 | Minutes are exactly two digits that denote the minute. |
| DateFormat.ClockText | src/pages/JobDetails.jsx:40-45 | `h:mm AM` is 7 characters for a one-digit hour and 8 for a two-digit hour. |
| JobDetails.ItemCount | src/pages/JobDetails.jsx:161 | Missing items count as 0; otherwise the count is the number of items. |
| JobDetails.TotalQuantity | src/pages/JobDetails.jsx:161 | The quantity total is a number or a text, never missing. |
| JobDetails.NumericTotal | src/pages/JobDetails.jsx:161 | When every quantity is a number or falsy, the total is their arithmetic sum. |
| JobDetails.TextTotalStaysText | src/pages/JobDetails.jsx:161 | One non-empty text quantity makes the total a text (JavaScript `+` concatenates). |
| JobDetails.DisplayAmount | src/pages/JobDetails.jsx:262-263 | The shown amount is 0 iff the stored amount is falsy. |
| JobDetails.DisplayIgnoresNormalisation | src/pages/JobDetails.jsx:262-263 | The shown amount is the same before and after the forms' load and submit normalisation. |
| JobDetails.PrintingLine | src/pages/JobDetails.jsx:215-222 | The printing line appears iff the type or the mode is non-blank. Both give `type (mode)`; one gives just that one. |
| JobDetails.PrintingParenthesised | src/pages/JobDetails.jsx:219-221 | For parts without `(`, the line contains `(` iff both parts are filled. |
| JobDetails.PrettyKeyWords | src/pages/JobDetails.jsx:250 | A key's label has exactly its `_`-separated words, capitalised and space-separated. None is lost or merged. |
| JobDetails.ShownCustomFields | src/pages/JobDetails.jsx:247-248 | A custom field is shown iff its value is not blank. It shows its own value. |
| Admin.FilteredSettings | src/pages/Admin.jsx:225-227 | With no (or a falsy) product selected, every setting is shown. Otherwise a setting is shown iff it is universal or scoped to that product. |
| Admin.PreviewMatchesResolver | src/pages/Admin.jsx:225-227 | For a non-zero product id, and a catalog in which no setting is scoped to the id `0`, the preview lists exactly the settings the job forms resolve for that product, in order. A setting scoped to `0` is shown in every preview (`!s.product_id`) but offered by no form (`=== null`). |
| Admin.GroupedSettings | src/pages/Admin.jsx:229-233 | Groups the shown settings by category. Each shown setting appears in exactly one group. |
| Admin.ProductName | src/pages/Admin.jsx:235-239 | A falsy id gives "All Products", an unknown id "Unknown Product". Otherwise the result is the first product with that id. |
| Admin.CategoryLabels | src/pages/Admin.jsx:241-244 | A name is a key iff some category has it. Its label is the display name of the last category with that name. |
| Admin.CategoryKeyIdempotent | src/pages/Admin.jsx:153 | A key derived from a display name derives to itself again. |
| Admin.CategoryKeyOfWords | src/pages/Admin.jsx:153 | Each maximal whitespace run in a display name, of any length and including a leading or trailing run, becomes one `_`, and the words between the runs are lower-cased. So "Paper  Type" and "Paper\tType" both give `paper_type`. |
| Admin.UnderscoredRuns | src/pages/Admin.jsx:153 | `replace(/\s+/g, '_')` on words separated by whitespace runs joins the words with single underscores. |
| Admin.UnderscoredRun | src/pages/Admin.jsx:153 | A whitespace run of any non-empty length after a word becomes one underscore. |
| Admin.DropRun | src/pages/Admin.jsx:153 | The `\s+` match is maximal: a whole whitespace run is consumed, up to the next other character. |
| Admin.NewCategory | src/pages/Admin.jsx:150-161 | An empty display name adds nothing. Otherwise the display name is kept and the key is `CategoryKey` of it, which has no whitespace. |
| Admin.NewSettingScope | src/pages/Admin.jsx:112 | A new setting is universal iff the chosen product is falsy. Otherwise it is scoped to that product. |
| Admin.AddedSettingShown | src/pages/Admin.jsx:106-122 | A setting added for the selected product, or for all products, is listed last in that product's preview. |
| StatusBadge.Suffix | src/components/StatusBadge.jsx:5-13 | Each of the six statuses gets its own suffix. Anything else gets `badge-received`. |
| StatusBadge.BadgeClass | src/components/StatusBadge.jsx:4-13 | The class is `badge ` followed by the status's suffix. |
| StatusBadge.UnknownLooksReceived | src/components/StatusBadge.jsx:12 | An unknown status is styled as Received. |
| StatusBadge.ClassIdentifiesStatus | src/components/StatusBadge.jsx:4-13 | A known status can be read back from its class. An unknown one reads back as Received. |
| StatusBadge.DistinctClasses | src/components/StatusBadge.jsx:6-11 | No two of the six statuses share a class. |
| StatusBadge.BadgeText | src/components/StatusBadge.jsx:17 | The badge's text is the status itself. |

## Left out

- HTTP requests (axios) are not modelled. Each fetched list, and whether a POST or DELETE succeeded, is a parameter. Error messages and `alert` are not modelled.
- `window.prompt` and `window.confirm` are not modelled. Their answers are parameters.
- Date parsing and time zones are not modelled. A due date is a day number, today is a parameter, and the day difference is their subtraction, standing in for `Math.round` of the millisecond difference.
- `created_at` is compared as its `YYYY-MM-DD` day text.
- The timestamp branch of `formatDate` is not modelled beyond the clock text. `DateFormat.FormatDate` returns a `Timestamp` marker for it.
- Polling of notifications (`setInterval`) is not modelled. Each poll is one call of `Fetch`.
- CSV export on the Dashboard is not modelled.
- Parsing `custom_fields` with `JSON.parse` is not modelled. The stored custom fields are a map, or absent.
- Case mapping covers ASCII letters only. Full Unicode `toLowerCase`/`toUpperCase` is not modelled.
- JobForm.Editor.QuickAdd: each handler is an atomic step. Stale closures and React's batched state updates are not modelled: the options are re-resolved with the new item and the new catalog. The source's `handleItemChange` call still sees the old settings, which matters only when the category is `product_type`.
- The `common_front`/`common_back` flags and the upload file contents are not modelled. The file map's values are generic.
- Setting ids (`res.data.id || Date.now()`) are not modelled.
- The job header fields (submitter, instructions, priority, delivery mode, dates) are not modelled. Only the client contact fields are.
- JobForm.Editor.EditJob: starts with no client selected. Copying the stored job's header and client fields (`src/pages/EditJob.jsx:63-76`) is not modelled.
- Admin's other REST handlers (editing and deleting products, settings, staff and categories, and adding products and staff) are not modelled. They only send requests and refetch.
- The mount effect's `prev.length > 0` guard (`src/pages/NewJob.jsx:61`) is not modelled. It matters only under React StrictMode's double mount.
- Select values are `Option<int>`, compared numerically. The string-to-number coercion of `==` is not modelled.
- Catalog.GroupBy: the grouping reduces start from `{}` (`src/pages/NewJob.jsx:151-155`, `src/pages/EditJob.jsx:117-120`). A category named after a member of `Object.prototype` (`constructor`, `__proto__`, `toString`, `valueOf`, `hasOwnProperty`, …) finds an inherited truthy value, so `.push` is not a function and the form throws a `TypeError`. The model gives such a category an ordinary group instead. A slugged display name such as "Constructor" yields the key `constructor`.
- Admin.GroupedSettings: the same `{}` reduce (`src/pages/Admin.jsx:229-233`) throws on those category names, and the admin page fails to render. The model groups them like any other category.
- Object key order (`Object.entries`, `Object.keys`) is not modelled. Grouped options and custom fields are maps.
- Stored items are assumed to always carry `product_type` and the eight option fields (`card_size` … `paper_thickness`). The job details page guards these against absence, but the forms' load and submit only pass them through.
- Amounts and quantities are integers. Fractional values are not modelled.
- Login and `localStorage` (`src/pages/Login.jsx`) are not part of this model.
- `src/App.jsx`, `src/components/Header.jsx` and `src/components/Sidebar.jsx` are not part of this model. They only route and render.
- `src/pages/NewClient.jsx` and `src/pages/EditClient.jsx` are not part of this model. They only post a form.
- The job details page is modelled only for the parts above. The rest of it renders fields as they are.
