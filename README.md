# simple-pdf-generator, modelled in Dafny

A verified model of the core of simple-pdf-generator. This library turns a decorated
TypeScript class into a PDF in four steps:

- It reads an HTML template.
- It substitutes the values of the `@PdfField` properties into `%%…%%` placeholders.
- It injects Bootstrap, jQuery, the class's own assets and a generated table script.
- It has a shared headless-browser session print the page.

Inside the page, the table script turns every `<inject-table>` into a `<table>` filled from
the `@PdfTable` data.

The modules are these:

| file | module | what it models |
|---|---|---|
| `js_value.dfy` | `JsValue` | The JavaScript values the pipeline touches: `ToString`, `Reflect.get`, and the object test `v != null && typeof v === 'object'`. |
| `generator.dfy` | `PdfGenerator` | The render session (`PdfGenerator`): browser arguments, lazy launch, the `disconnected` handler, the script cache, asset injection, the default options merged with `Object.assign`, and the order of page calls. |
| `bindings.dfy` | `Bindings` | The three decorator registries (`PdfFieldClass`, `PdfTableClass`, `PdfTemplateClass`). |
| `placeholder.dfy` | `Placeholder` | `template.replace(new RegExp('%%.*?(name).*?%%', 'g'), value)`, modelled as the regular-expression engine runs it. |
| `filler.dfy` | `PdfFiller` | `PdfFiller.fill`: binding lookup, field substitution, the asset list, table data built with `Object.defineProperty`, the injection of the script text, option merging, rendering and the output file. |
| `table_generator.dfy` | `TableGenerator` | `template/js/table-generator.js`: `createTables`, `populateTable` and dotted-path resolution. |

How the side effects are modelled:

- **The headless browser.** It is an abstract engine. Each call the session makes is appended to a trace (`Generator.trace`). What a call returns is a parameter of the method:
  - the launch outcome;
  - the printed bytes;
  - which page call, if any, rejects (`failAt`, numbering the page calls of one render from 0);
  - whether writing the output file rejects (`writeFails`).
- **The file system.** It is a map from path to text.
- **Two external helpers are function parameters:**
  - `getFileExtension` (`src/utils.ts`) is `ext`;
  - `stringify-object` is `serialize`.
- **Stateful parts are classes whose methods update fields in place:**
  - the registries;
  - the render session;
  - the page the table script runs in.
- **Pure parts are functions, proved against lemmas:**
  - substitution;
  - option merging;
  - path resolution;
  - the table shape.

The central specification functions carry no contract of their own. The lemmas and methods in the table below state what they mean:
- `Placeholder.ReplaceAll` is the global placeholder replace (src/PdfFiller.ts:122).
- `PdfFiller.TableData` is the table data built with `Object.defineProperty` (src/PdfFiller.ts:134-139).
- `PdfFiller.PrepareSpec` is the preparation part of `fill`, from the binding lookup to the merged options (src/PdfFiller.ts:113-154).
- `PdfGenerator.RenderCalls` is the page calls of one render (src/PdfGenerator.ts:66-95).
- `PdfGenerator.GetPdfSpec` is the whole of `getPdf` (src/PdfGenerator.ts:57-98).
- `TableGenerator.ResolvePath` is the dotted-path lookup of one cell (template/js/table-generator.js:78-86).
- `TableGenerator.Rows` is the body that `populateTable` builds (template/js/table-generator.js:74-90).
- `TableGenerator.Expand` is one run of `createTables` (template/js/table-generator.js:9-63).

Where the code and the library's written description disagree, the model follows the code:

- **Re-decorating a property appends a second binding.** It does not replace the first (`Bindings.ReRegisterKeepsBoth`).
- **Two `@PdfTable` properties with the same table name and different values make `fill` throw.** Each property is defined with `Object.defineProperty` and no `writable`/`configurable` flags, so the second definition of a non-configurable property throws a `TypeError`. The later value does not win (`PdfFiller.DuplicateNameThrows`).
- **A caller's `margin` replaces the whole default margin object.** `Object.assign` is shallow, so a `{margin: {top}}` override loses the default left, right and bottom margins (`PdfGenerator.MarginOverrideIsShallow`).
- **A template with no `@PdfField` bindings makes `fill` resolve to `undefined`.** It does not fail with an error (`PdfFiller.MissingBindingIsUnbound`).
- **Field values are inserted as their string conversion.** There is no HTML escaping, and image properties are not inlined.
- **The stored `className` is `"Function"`.** `PdfTemplateClass` stores `target.constructor.name`. The decorator's `target` is the class constructor itself, so this is the name of that constructor's own constructor, `Function` (`Bindings.ConstructorOfClassName`). No lookup reads this field.

## Model

| member | source | states |
|---|---|---|
| JsValue.NatToString | src/PdfFiller.ts:122 | The decimal text of a number used as a replacement value is non-empty and all digits, and it reads back as the number. It has no leading zero unless the number is zero, and it is one digit exactly when the number is below ten. |
| JsValue.NatToStringInjective | template/js/table-generator.js:83 | Distinct array indices have distinct key texts, so an index key names one element. |
| JsValue.IndexLookup | template/js/table-generator.js:83 | `Reflect.get` on an array with a non-`length` key gives undefined, or the element whose canonical index text is the key. |
| JsValue.GetArrayIndex | template/js/table-generator.js:78-83 | `Reflect.get(array, String(i))` is the i-th element. |
| JsValue.IndexLookupFinds | template/js/table-generator.js:83 | An index lookup searching from any earlier position finds the element with that index. |
| PdfGenerator.BrowserArgs | src/PdfGenerator.ts:38-42 | The browser always gets the three proxy/security arguments first. It gets `--no-sandbox` exactly when `PUPPETEER_NO_SANDBOX` is `true`, and then `--no-sandbox` and `--disable-setuid-sandbox` are the only two other arguments. Otherwise there are just the three. |
| PdfGenerator.Assign | src/PdfGenerator.ts:91 | `Object.assign` of options: the keys are the union, every source key overrides, and every other target key is kept. |
| PdfGenerator.EffectivePdfOptions | src/PdfGenerator.ts:79-92 | `page.pdf` gets the defaults (A4, 2cm/2cm/1cm/1cm margins, printed backgrounds), each top-level key overridden by the caller's. |
| PdfGenerator.MarginOverrideIsShallow | src/PdfGenerator.ts:81-91 | A `margin` override with only `top` replaces the whole margin: no `right` remains, and format and background are kept. |
| PdfGenerator.Injection | src/PdfGenerator.ts:101-119 | An asset gets a style tag exactly when its kind is `css`, a script tag exactly when it is `js`, and nothing otherwise. The kind is the explicit type, else the path's extension. |
| PdfGenerator.UntypedPathlessAssetSkipped | src/PdfGenerator.ts:102-119 | An asset with neither type nor path is never injected. |
| PdfGenerator.InjectCalls | src/PdfGenerator.ts:100-121 | At most one tag per asset, and only style or script tags. |
| PdfGenerator.InjectCallsAppend | src/PdfGenerator.ts:101 | Injecting a list and then one more asset is the same as injecting the longer list. |
| PdfGenerator.InjectCallsConcat | src/PdfGenerator.ts:101 | Injection of concatenated lists is the concatenation of the injections, so assets go in list order. |
| PdfGenerator.InjectStep | src/PdfGenerator.ts:101-120 | One more asset, no earlier tag call having rejected: its tag call follows the earlier ones, and when it rejects, the calls for the whole list end with it. |
| PdfGenerator.InjectStopsAt | src/PdfGenerator.ts:101-120 | A tag call that rejects ends the injection calls for the whole list there. |
| PdfGenerator.RenderCallsOrder | src/PdfGenerator.ts:66-95 | A render opens exactly one page first, then emulates `screen`. It sets the content, as the third call, exactly when the template is non-empty. It prints once, second to last, with the effective options, and closes the page last. |
| PdfGenerator.IssuedConcat | src/PdfGenerator.ts:66-97 | Calls made in two steps: a rejection in the first step ends the render there, and otherwise the second step is made with its calls numbered after the first's. |
| PdfGenerator.RenderCallsAt | src/PdfGenerator.ts:66-95 | A render has the two or three opening calls, then exactly the asset injections, then `page.pdf` and `page.close`, at those positions. |
| PdfGenerator.FailedRenderLeavesPageOpen | src/PdfGenerator.ts:66-97 | A render whose page call rejects before the last one opened a page and never closes it. When the rejection comes before `page.pdf`, nothing is printed. |
| PdfGenerator.SucceededRenderClosesPage | src/PdfGenerator.ts:66-97 | A render where no call rejects makes every call of `RenderCalls`, and its last call closes the page. |
| PdfGenerator.RenderCallsNoLaunch | src/PdfGenerator.ts:66-95 | No page call of a render launches a browser. |
| PdfGenerator.GetPdfLaunchesOnlyWithoutBrowser | src/PdfGenerator.ts:57-98 | With a browser, `getPdf` keeps the handle and launches nothing. Without one, a launch comes before any other call. A PDF is returned only with a browser and only when no page call rejected, and then the last call closes the page. |
| PdfGenerator.Generator.constructor | src/PdfGenerator.ts:24-26 | The session starts with no browser, an empty script cache and no calls. |
| PdfGenerator.Generator.TableGeneratorScript | src/PdfGenerator.ts:26-35 | The file is read only while the cache is empty; afterwards the cached text is returned without another read. A read that throws returns no script and leaves the cache empty and the read count as it was, so the next call reads again. |
| PdfGenerator.Generator.StartBrowser | src/PdfGenerator.ts:37-55 | Launches with the computed arguments, headless unless `PUPPETEER_NO_HEADLESS`. A failed launch reports failure and changes nothing. A browser lost before use leaves the handle null. |
| PdfGenerator.Generator.OnDisconnected | src/PdfGenerator.ts:50-54 | The `disconnected` handler closes the old handle, nulls it and relaunches. The handle becomes the relaunched browser. |
| PdfGenerator.Generator.PageCall | src/PdfGenerator.ts:66-95 | Each awaited page call is recorded, and it rejects exactly when it is the call the outcome names. |
| PdfGenerator.Generator.OpenPage | src/PdfGenerator.ts:66-73 | `newPage`, `emulateMediaType('screen')` and, for a non-empty template, `setContent` are made in that order, up to and including one that rejects. |
| PdfGenerator.Generator.PrintAndClose | src/PdfGenerator.ts:79-95 | `page.pdf` with the defaults overridden by the caller's options, then `page.close`, up to and including one that rejects. |
| PdfGenerator.Generator.IncludeAssets | src/PdfGenerator.ts:100-121 | The loop over the assets makes the injection calls of the list, in order, up to and including a tag call that rejects. It reports success exactly when none of them rejects. |
| PdfGenerator.Generator.InjectAsset | src/PdfGenerator.ts:102-119 | One asset: its kind is its type, else its path's extension; `css` gets a style tag, `js` a script tag, any other kind none. It reports a rejection exactly when its tag call is the one that rejects. |
| PdfGenerator.Generator.RenderOnPage | src/PdfGenerator.ts:66-97 | The page calls of one render are the ordered calls of `RenderCalls`, up to and including the first that rejects. The render succeeds exactly when none rejects. |
| PdfGenerator.Generator.GetPdf | src/PdfGenerator.ts:57-98 | `getPdf` leaves the result, the handle and the calls that `GetPdfSpec` gives. An existing browser is reused without a launch; without one, the browser is launched first. A thrown launch is an error with no calls. A browser lost before use gives "Browser not started". Otherwise the page calls are made until one rejects, and the PDF is returned only when none does. |
| PdfGenerator.Generator.StartIfNeeded | src/PdfGenerator.ts:58-64 | The start of `getPdf` leaves the error, handle and calls that `StartupSpec` gives: an existing browser is kept with no call; otherwise a launch is made, a thrown launch is an error with no calls, and a browser lost before use is "Browser not started". |
| PdfGenerator.RenderAfterDisconnect | src/PdfGenerator.ts:50-64 | After a disconnect and a successful relaunch, the next render uses the new browser without launching again. |
| Bindings.RegisterAppends | src/PdfFiller.ts:28-36 | Registering appends the binding to the target's list, creating the list on first use. No other prototype's list changes, and well-formedness is kept. |
| Bindings.RegisterInOrder | src/PdfFiller.ts:28-36 | Registering several properties leaves the old list followed by the new bindings in declaration order, and no other prototype changes. |
| Bindings.ReRegisterKeepsBoth | src/PdfFiller.ts:29-35 | Decorating the same property twice keeps both bindings. |
| Bindings.BindingRegistry.constructor | src/PdfFiller.ts:26 | A registry starts empty and well formed. |
| Bindings.BindingRegistry.RegisterDecorator | src/PdfFiller.ts:28-36 | The map becomes the map with the binding appended to the target's list, and stays well formed. |
| Bindings.BindingRegistry.GetDecorators | src/PdfFiller.ts:38-40 | A list is found exactly when the instance's immediate prototype was registered. It is then non-empty and holds bindings of that prototype's constructor. |
| Bindings.TemplateRegistry.constructor | src/PdfFiller.ts:99 | The template registry starts empty. |
| Bindings.TemplateRegistry.RegisterDecorator | src/PdfFiller.ts:101-107 | The constructor's entry becomes the options, with class name `Function`, overwriting any earlier entry. Afterwards every instance whose prototype has that constructor finds exactly these options, and every other instance finds what it found before. |
| Bindings.LaterTemplateWins | src/PdfFiller.ts:101-103 | Two registrations for one class leave the map as if only the later one had been made, so the later options are found. Every other class keeps exactly the entry it had, or still has none. |
| Bindings.RegisterTemplateTwice | src/PdfFiller.ts:101-107 | A class decorated twice through the registry: its instances find the later options, and every other class finds what it found before. |
| Placeholder.CloseFrom | src/PdfFiller.ts:122 | The lazy `.*?%%`: the first `%%` reached without crossing a line terminator, with none before it. None exactly when every `%%` lies past a line terminator. |
| Placeholder.NameFrom | src/PdfFiller.ts:122 | `.*?(name).*?%%` picks the first occurrence of the name, with no line terminator before it, that a closing `%%` can follow. No earlier occurrence can be closed. |
| Placeholder.NameFromNone | src/PdfFiller.ts:122 | When no occurrence is picked, no occurrence of the name reachable without a line terminator can be closed. |
| Placeholder.MatchAt | src/PdfFiller.ts:122 | A match starts with `%%`, ends with `%%`, has an occurrence of the name between the two markers, and is at least the name plus four characters long. |
| Placeholder.MatchAtExactly | src/PdfFiller.ts:122 | A match starts at a position exactly when a `%%` is there and some occurrence of the name, reached without a line terminator, can be closed. The match takes the first such occurrence and ends after the first `%%` that closes it. |
| Placeholder.MatchAtFirst | src/PdfFiller.ts:122 | A match comes from a `%%`, the first closable occurrence of the name on the same line, and the first `%%` after it. |
| Placeholder.MatchAtWhenClosable | src/PdfFiller.ts:122 | A `%%` followed on the same line by a closable occurrence of the name always starts a match. |
| Placeholder.CopiedUpTo | src/PdfFiller.ts:122 | Where no match starts, the global replace copies the text unchanged. |
| Placeholder.ReplaceWithoutMatch | src/PdfFiller.ts:122 | Text where no match starts is returned unchanged. |
| Placeholder.NoMarkerNoChange | src/PdfFiller.ts:122 | Text without `%%` is byte-identical after substitution. |
| Placeholder.AbsentNameNoChange | src/PdfFiller.ts:122 | A field whose name does not occur leaves the template byte-identical. |
| Placeholder.TokenReplaced | src/PdfFiller.ts:122 | An exact `%%name%%`, with no `%` before it, is replaced by the value, and the scan resumes right after it. |
| Placeholder.TokenStep | src/PdfFiller.ts:122 | At an exact `%%name%%` the scan writes the value and resumes right after the token. |
| Placeholder.PercentFreePrefixCopied | src/PdfFiller.ts:122 | The text before the first `%` is copied unchanged. |
| Placeholder.TokenMatches | src/PdfFiller.ts:122 | An exact `%%name%%` is a match that ends right after its closing `%%`. |
| Placeholder.ReplacedAt | src/PdfFiller.ts:122 | Where a match starts, the global replace writes the value and resumes right after the match. |
| Placeholder.NoMatchBeforePercent | src/PdfFiller.ts:122 | No match starts before the first `%` of the text. |
| Placeholder.NoPercentTail | src/PdfFiller.ts:122 | A tail without `%` is copied unchanged. |
| Placeholder.LoneTokenReplaced | src/PdfFiller.ts:122 | In a text whose only `%` signs are those of one exact `%%name%%`, that token becomes the value and the rest is unchanged. |
| PdfFiller.SubstitutedSnoc | src/PdfFiller.ts:121-123 | Each further field is substituted into the result of the earlier ones, in declaration order. |
| PdfFiller.NoDeclaredNameNoChange | src/PdfFiller.ts:121-123 | A template in which no declared field name occurs comes out unchanged. |
| PdfFiller.LoneFieldSubstituted | src/PdfFiller.ts:121-123 | A template whose only `%` signs are those of one field's `%%name%%` gets that field's string value in the placeholder's place, and the rest is kept. |
| PdfFiller.NumberTemplateExample | src/PdfFiller.ts:119-123 | A class with field `number` = 2 turns `<p>%%number%%</p>` into `<p>2</p>`. |
| PdfFiller.EntryIndex | src/PdfFiller.ts:138 | Finds an entry with the given key, or none exists. |
| PdfFiller.DefineShape | src/PdfFiller.ts:138 | A successful `defineProperty` keeps the keys distinct. It keeps every earlier entry, holds the new name and value, and adds nothing else. |
| PdfFiller.BindingEntriesSnoc | src/PdfFiller.ts:137-139 | One more table binding adds its entry at the end. |
| PdfFiller.TableDataShape | src/PdfFiller.ts:136-139 | Built table data has distinct keys. Every binding's entry is present, and no entry comes from elsewhere. |
| PdfFiller.DistinctNamesDefineAll | src/PdfFiller.ts:136-139 | With distinct table names the data object gets exactly one property per binding, defined in declaration order, each holding the table name and the property value. |
| PdfFiller.DuplicateNameThrows | src/PdfFiller.ts:138 | Two bindings with one table name and different values make the definition throw. |
| PdfFiller.RedefinedStays | src/PdfFiller.ts:137-139 | After a definition throws, later bindings are not reached. |
| PdfFiller.IndexOf | src/PdfFiller.ts:142 | The first occurrence of the pattern at or after the start, or none anywhere. |
| PdfFiller.ReplaceFirstOnlyFirst | src/PdfFiller.ts:142 | A string-pattern replace rewrites only the first occurrence and keeps later ones. |
| PdfFiller.ReplaceFirstAbsent | src/PdfFiller.ts:142 | Without the pattern the script text is unchanged. |
| PdfFiller.MergedOptions | src/PdfFiller.ts:146-154 | Call options override class options key by key. The other class keys are kept, and nothing else is added. |
| PdfFiller.MissingBindingIsUnbound | src/PdfFiller.ts:118 | Nothing is prepared exactly when the template binding or the field bindings are missing. |
| PdfFiller.PreparedShape | src/PdfFiller.ts:119-154 | A prepared render has the substituted template. Its assets are the three defaults, the class includes and, exactly when table bindings exist, one generated `js` script last. Its options are merged. |
| PdfFiller.PreparedWhenReadable | src/PdfFiller.ts:119-144 | With both bindings and a readable template, preparation succeeds exactly when there are no tables, or the data builds and the script file exists. |
| PdfFiller.SubstituteFields | src/PdfFiller.ts:121-123 | The loop over the field bindings yields the specified substitution. |
| PdfFiller.AppendIncludes | src/PdfFiller.ts:125-133 | The asset list is the three defaults followed by the class includes, in order. |
| PdfFiller.DefineTableData | src/PdfFiller.ts:136-139 | The loop defining the table data matches the specified result, including the throw. |
| PdfFiller.Prepare | src/PdfFiller.ts:113-154 | The preparation steps produce exactly the specified preparation. |
| PdfFiller.Deliver | src/PdfFiller.ts:156-168 | From a finished preparation (`Delivered`): without bindings the result is nothing, and a failed preparation gives its reason; neither touches the session. Otherwise the session renders as `GetPdfSpec` states, and a failed render passes its reason on. A rendered PDF is returned and written to `outputPath` when one is given; a rejected write makes `fill` reject without a PDF. The script cache and its read count do not change. |
| PdfFiller.DeliveredWithoutRejection | src/PdfFiller.ts:156-168 | With a browser at hand or launched, no page call rejecting and the file written, `fill` returns the printed PDF. This comes after exactly the launch (if needed) and every call of one render, and the session keeps a browser. |
| PdfFiller.Fill | src/PdfFiller.ts:113-170 | `fill` looks up the three registries for the instance, prepares as specified, and then ends as `Delivered` states for that preparation. It changes only the session's browser handle and call trace. |
| TableGenerator.NewTable | template/js/table-generator.js:15-56 | The new table copies `class`, `id`, `style` and `items` when present. It has one header cell per column, in order, with the column's label (or empty text) and `prop`. |
| TableGenerator.JoinSplit | template/js/table-generator.js:78-80 | Joining the dot-split path with dots gives the path back. |
| TableGenerator.SplitFirst | template/js/table-generator.js:78-80 | A dot-free first segment is the first element of the split. |
| TableGenerator.SplitSingle | template/js/table-generator.js:78 | A dot-free path is a single segment. |
| TableGenerator.SplitThree | template/js/table-generator.js:78 | A path of three dot-free names splits into exactly those three segments. |
| TableGenerator.PrimitiveIgnoresRest | template/js/table-generator.js:78-86 | A primitive at the first segment is the value, and the remaining segments are ignored. |
| TableGenerator.MissingIntermediateThrows | template/js/table-generator.js:79-84 | A missing intermediate object makes the lookup throw rather than give an empty cell. |
| TableGenerator.NestedLookup | template/js/table-generator.js:78-86 | Through an object at the first segment, a two-segment path reads the second segment on that object. |
| TableGenerator.NestedPathExample | template/js/table-generator.js:78-86 | `nestedObject.nestedName` on `{nestedObject: {nestedName: "Foo"}}` gives `Foo`. |
| TableGenerator.CellTextByKind | template/js/table-generator.js:88 | Null and undefined give an empty cell. A boolean gives `true` or `false`, a string itself, an object `[object Object]` and an empty array an empty cell. |
| TableGenerator.CellTextOfNumber | template/js/table-generator.js:88 | A number gives its decimal text, which reads back as the number. A negative number gives `-` followed by the digits of its magnitude. |
| TableGenerator.CellTextOfSingleton | template/js/table-generator.js:88 | A one-element array gives the same text as its element. |
| TableGenerator.FalsyValuesWritten | template/js/table-generator.js:88 | `0` and `false` are written as `0` and `false`, not as empty cells. |
| TableGenerator.RowCellsErrorStays | template/js/table-generator.js:77-89 | After a cell throws, no later column of that row is reached. |
| TableGenerator.RowsErrorStays | template/js/table-generator.js:74-90 | After a row throws, no later item is reached. |
| TableGenerator.RowsKeepError | template/js/table-generator.js:74-90 | A body that has thrown is kept as it is by one more item. |
| TableGenerator.RowCellsShape | template/js/table-generator.js:77-89 | A complete row has one cell per header column, each the text of that column's resolved value. |
| TableGenerator.RowCellsLength | template/js/table-generator.js:77-89 | A complete row has one cell per header column. |
| TableGenerator.RowCellAt | template/js/table-generator.js:77-89 | Cell `j` of a complete row is the text of column `j`'s resolved value. |
| TableGenerator.RowCellsStep | template/js/table-generator.js:77-89 | One more column extends a row that has not thrown by that column's text, or ends the row with the column's error. |
| TableGenerator.RowCellsStopsAt | template/js/table-generator.js:77-89 | Once a row throws at a column, the later columns change nothing. |
| TableGenerator.RowCellsLast | template/js/table-generator.js:77-89 | A complete row is the row of all but the last column, followed by the last column's text. |
| TableGenerator.RowsStep | template/js/table-generator.js:74-90 | One more item extends a body that has not thrown by that item's row, and takes on the row's error. |
| TableGenerator.RowsStopsAt | template/js/table-generator.js:74-90 | Once an item's row throws, the later items change nothing. |
| TableGenerator.RowsShape | template/js/table-generator.js:74-90 | A complete body has one row per data item, in order, each the complete row of that item. |
| TableGenerator.ExpandErrorStays | template/js/table-generator.js:12-62 | After a table throws, the rest of the document is untouched and no further table is pushed. |
| TableGenerator.ExpandStep | template/js/table-generator.js:12-61 | One more node processed: an `<inject-table>` is replaced by its populated table, which is also pushed. Other nodes are kept. |
| TableGenerator.ExpandStopsAt | template/js/table-generator.js:12-62 | A throw at one node leaves every later node as it was. |
| TableGenerator.ExpandShape | template/js/table-generator.js:9-63 | The document keeps its length, and the tables pushed are exactly those left where an `<inject-table>` stood, in document order. When nothing throws, each `<inject-table>` is replaced in place by its populated table, no `<inject-table>` remains, other nodes are unchanged, and one table is pushed per `<inject-table>`. |
| TableGenerator.ExpandAdded | template/js/table-generator.js:9-63 | Whether or not a throw stopped the run, the tables pushed onto `tables` are the tables now in the document at the positions of the `<inject-table>` elements, in document order. This includes the table whose population threw. |
| TableGenerator.ExpandLength | template/js/table-generator.js:12-61 | Every node of the document stands for exactly one node of the result. |
| TableGenerator.ExpandLast | template/js/table-generator.js:12-61 | A run that did not throw is the run on all but the last node, then the last node expanded. |
| TableGenerator.ReplaceStep | template/js/table-generator.js:12-61 | Replacing the `<inject-table>` at one position by its populated table, and pushing it, is the specified run one node further, error included. |
| TableGenerator.SkipStep | template/js/table-generator.js:12-61 | Passing over any other node keeps the processed state one node further on. |
| TableGenerator.NoInjectTableNoChange | template/js/table-generator.js:10-12 | A document without `<inject-table>` is unchanged and adds no table. |
| TableGenerator.SecondRunAddsNothing | template/js/table-generator.js:5-7 | After a successful run, the `start` event's second run changes nothing and adds no table. |
| TableGenerator.BuildRow | template/js/table-generator.js:77-89 | The column loop produces exactly the specified row, up to the first throw. |
| TableGenerator.BuildBody | template/js/table-generator.js:74-90 | The item loop produces exactly the specified rows, partial row included. |
| TableGenerator.PopulateTable | template/js/table-generator.js:65-91 | The data is `tablesData[items]` (key `null` without `items`). A non-iterable value throws with an empty body. Otherwise the specified rows are filled in. |
| TableGenerator.Page.constructor | template/js/table-generator.js:2-3 | The page starts with its document, its data and no tables. |
| TableGenerator.Page.CreateTables | template/js/table-generator.js:9-63 | The loop leaves the document, the pushed tables and the error exactly as specified. |
| TableGenerator.Page.LoadThenStart | template/js/table-generator.js:1-7 | The load-time call and then the `start` event are two runs of `createTables`. The second run works on the document the first left, and both runs' tables are pushed. A run that throws still leaves its tables pushed, and the second run then processes the `<inject-table>` elements the first did not reach. When the first run succeeds, the second adds nothing and reports no error. |

## Left out

- PdfFiller.TableScript: `$$`, `$&`, `` $` `` and `$'` in the serialized table data are not expanded by the string `replace`. The data text is inserted literally, as it is whenever the data holds no `$`.
- JsValue.ToJsString: numbers are unbounded integers printed in plain decimal. The exponent form that JavaScript uses from 10^21 up, and the rounding of integers above 2^53, are not modelled.
- PdfFiller.DistinctNamesDefineAll: entries keep the order of definition. JavaScript lists integer-like keys first, in ascending order, so a table name such as `2` would come first in the serialized data; that ordering is not modelled.
- PdfFiller.Deliver: a rejected write is all-or-nothing. A partly written output file is not modelled.
- **Replacement patterns in field values.** `$&`, `$1` and `$$` in a field value are not expanded by `Placeholder.ReplaceAll`. The value is inserted literally.
- **Regex metacharacters in field names.** A field name is taken as literal text. One containing metacharacters is not interpreted as a pattern.
- **Non-integral numbers.** Numbers are integers, so `NaN`, `Infinity` and fractions (and their string forms) are not modelled.
- **`Reflect.get` lookups.** They read own properties, array `length` and array indices only. The prototype chain, getters, symbols and functions are not modelled.
- **`Object.defineProperty` comparison.** Its SameValue check is approximated by structural equality of values. Object identity is not modelled.
- **Asynchrony.** The `await` points are sequential. An interleaving of two concurrent `getPdf` calls is not modelled.
- **Disconnects.** A disconnect is a method call (`Generator.OnDisconnected`).
  - The relaunch that a disconnect during launch starts is not followed: `LostBeforeUse` only leaves the handle null.
  - A relaunch that throws inside the handler leaves the handle null (`StartedBrowser` of a failed launch). The handler's promise rejection is not observed by anyone, and the model has no result for it.
  - The page that a rejected page call leaves open is not closed by anything in the source; the model records it as a trace without `ClosePage` (`PdfGenerator.FailedRenderLeavesPageOpen`). What the engine does with it later is not modelled.
- **Browser launch options.** Only the two environment toggles are modelled. `defaultViewport: null` and the `'new'` headless mode are folded into a boolean.
- **Outside code.** The following are not part of this model; the render is handed its template text directly:
  - `readContentOrFile` and `getFileExtension` (src/utils.ts);
  - `stringify-object`;
  - the engine's page, PDF and file-writing internals.
- **The script cache in `fill`.** `fill` reads the table script file itself. `Generator.TableGeneratorScript` models the cache separately.
- **Script serialization.** How the serialized data text becomes the page's `tablesData` object is not modelled.
  - `PdfFiller` and `TableGenerator` share no data type; `TableGenerator.Page` takes the object as a map.
- **The DOM.** The document is flat, in document order.
  - Nesting is not modelled, and neither are `<inject-table>` elements inside other `<inject-table>` elements.
  - Element identity is not modelled, so `populateTable`'s `tables.find` check, which always succeeds on a table just pushed, is omitted.
  - Cell contents are the strings assigned to `innerHTML`, not parsed HTML.
  - Style is the raw attribute text.
- **Outside the core.** `src/Server.ts`, the `examples/` directory and the bundled CSS/JS assets are not part of this model.
