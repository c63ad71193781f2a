# Cat gallery page: HTML escaping and the modal/form state

The gallery is a small CRUD application for cat records (name, description,
tag, image). Its browser script holds the only logic that is not plumbing, and
this project models that logic in Dafny:

- `escapeHtml`, the function that every name, description and tag goes
  through before it is spliced into the markup of a card. It is modelled in
  `html_escape.dfy` (module `HtmlEscape`). There are five global
  replacement passes, run in the order the script runs them. The model
  proves that together they escape each character independently. From that
  it proves the safety, length, round-trip and (non-)idempotence properties.
- The state behind the two dialogs, modelled in `cat_page.dfy` (module
  `CatPage`). The script keeps two variables, `currentCatId` and
  `catToDeleteId`. They decide whether a form submit creates a cat (POST) or
  updates one (PUT), and whether the delete confirmation sends a DELETE.
  `CatPage.Page` is a class with these variables and the dialogs' display
  state as fields. Its methods return the request as an `Action` value
  instead of calling `fetch`. JavaScript truthiness is modelled explicitly
  (`IsSet`): an empty-string id counts like `null`.

`wrappers.dfy` holds the `Option` type, with `None` standing for `null`.

Text is `string` (`seq<char>`). The falsy inputs of `escapeHtml` are
represented by the empty string. `Unescape` decodes the five entities the way
an HTML parser does when it reads an attribute value or `innerHTML`. It does
not model the parser's preprocessing of line endings and NUL. It is the
inverse that the round-trip lemmas are stated against.

## Model

| member | source | states |
|---|---|---|
| `HtmlEscape.ReplaceAll` | public/script.js:271-275 | one `.replace(/c/g, entity)` pass: each occurrence of the character becomes the entity, every other character is copied in order; its properties are the two rows below |
| `HtmlEscape.EscapeHtml` | public/script.js:268-276 | `escapeHtml`: the empty (falsy) text gives `''`, any other text goes through the five passes in source order, `&` first; what it computes is stated by `EscapeHtmlIsPerChar` and the lemmas after it |
| `HtmlEscape.ReplaceAllChars` | public/script.js:270-275 | one global `.replace` pass writes only the input's other characters and the characters of its entity |
| `HtmlEscape.ReplaceAllAbsent` | public/script.js:270-275 | a `.replace` pass leaves text that lacks its character unchanged |
| `HtmlEscape.PassesChar` | public/script.js:271-275 | on a single character the five passes produce exactly that character's entity: no later pass rewrites what an earlier one wrote |
| `HtmlEscape.EscapeHtmlIsPerChar` | public/script.js:268-276 | the chain of five replacements equals escaping each character on its own (`&`, `<`, `>`, `"`, `'` to their entities, everything else copied) and concatenating |
| `HtmlEscape.AmpersandPassMustComeFirst` | public/script.js:271-272 | the order matters: with the `&` pass after the `<` pass, `<` would come out as `&amp;lt;`; in source order it is `&lt;` |
| `HtmlEscape.EscapeHtmlEmpty` | public/script.js:269 | the falsy (empty) input gives `''`, and no other input does |
| `HtmlEscape.EscapeHtmlSafe` | public/script.js:272-275 | the output contains no `<`, `>`, `"` or `'` |
| `HtmlEscape.EscapeHtmlLength` | public/script.js:270-275 | the output is never shorter than the input; it has the same length, and equals the input, exactly when the input has none of the five special characters |
| `HtmlEscape.UnescapeEscapeHtml` | public/script.js:270-275 | decoding the five entities of the output gives back the input, in order; so for text without carriage returns or NUL the `data-*` attributes written at lines 152-153 read back the original values at lines 198-204 |
| `HtmlEscape.EscapeHtmlNotIdempotent` | public/script.js:270-275 | escaping the output again leaves it unchanged exactly when the input had no special character |
| `HtmlEscape.EscapeTwiceAmpersand` | public/script.js:268-276 | escaping twice turns `&` into `&amp;amp;` |
| `HtmlEscape.FallbackNameDecodesTwice` | public/script.js:117-129 | the name is escaped once at line 117 and again for the image fallback at line 129; for a name without backslash or line break, two rounds of decoding (the `onerror` attribute, then `innerHTML`) give it back |
| `CatPage.IsSet` | public/script.js:188 | JavaScript truthiness of an id variable as tested at lines 188 and 229: `null` and the empty string are falsy, every other string is truthy |
| `CatPage.FieldsOf` | public/script.js:222-227 | the request body built from the form: `name` and `tag` kept, `description` renamed `descreption`, `image` renamed `img` |
| `CatPage.Page.constructor` | public/script.js:13-14 | at load neither `currentCatId` nor `catToDeleteId` is set; hidden dialogs and empty inputs are taken from the page markup |
| `CatPage.Page.OpenCatModal` | public/script.js:236-250 | with a cat: `currentCatId` becomes its id, the title says edit, the inputs show its fields (`descreption` into `description`, `img` into `image`); without: `currentCatId` is cleared, the title says add, the form is reset; the modal is shown; the delete state is untouched |
| `CatPage.Page.OpenDeleteConfirm` | public/script.js:252-255 | `catToDeleteId` becomes the id and the dialog is shown; `currentCatId` and the form are untouched |
| `CatPage.Page.CloseModals` | public/script.js:257-262 | both dialogs are hidden and both ids cleared |
| `CatPage.Page.HandleFormSubmit` | public/script.js:217-234 | the request is a PUT to `currentCatId` exactly when it is truthy, a POST otherwise; its body is the form's values with `description` renamed `descreption` and `image` renamed `img` |
| `CatPage.Page.ConfirmDelete` | public/script.js:187-191 | a DELETE of `catToDeleteId` exactly when it is truthy, no request otherwise |
| `CatPage.AddFlow` | public/script.js:169-171 | after the add button, a submit POSTs whatever the user typed |
| `CatPage.EditFlow` | public/script.js:196-207 | after an edit button, submitting the unchanged form PUTs the same record to its id; an empty id turns it into a POST |
| `CatPage.DeleteFlow` | public/script.js:209-213 | after a delete button, confirming DELETEs that id (nothing for an empty id) and leaves `currentCatId` as it was |
| `CatPage.CloseFlow` | public/script.js:175-183 | after `closeModals` a submit is a POST and a confirmation sends nothing |

## Left out

- `app.js` (the Express routes, body parsing, the MySQL pool and the SQL) is not part of this model: it is I/O into libraries whose behaviour is not in the repository. The create/read/update/delete semantics live in the database.
- `fetchCats`, `addCat`, `updateCat` and `deleteCat` (public/script.js:24-92) are network calls. The model stops at the `Action` they would be given. The `closeModals` call they make on success is the modelled `CloseModals`. Error notifications and re-fetching are not modelled.
- Rendering (`renderCats`, `createCatCard`, `updateCatCount`) and `showNotification` are DOM templating, styling and timers. The image URL goes into `src` without escaping (line 128), so the card as a whole is not claimed to be escaped.
- `HtmlEscape.EscapeHtml`: `String(text)` on non-string values (`null`, `undefined`, numbers) is not modelled. The input is a string, and the empty string stands for every falsy value.
- `HtmlEscape.Unescape` decodes only the five entities `escapeHtml` produces, not the full table of HTML character references. It also leaves out the parser's input preprocessing: a carriage return (alone or before a line feed) becomes a line feed and NUL becomes U+FFFD. So a description holding `\r\n` does not read back unchanged from `dataset`, and the round trip is claimed only for text without CR or NUL.
- `HtmlEscape.FallbackNameDecodesTwice`: the `onerror` handler at line 129 evaluates a JavaScript string literal between the two HTML decodings. That layer is not modelled. A backslash in the name starts an escape sequence and a line break makes the handler a syntax error, so the lemma requires a name without backslash, CR or LF. A NUL in the name is not excluded, although the parser would replace it (see the `HtmlEscape.Unescape` line above).
- `CatPage.Page.OpenCatModal`: the inputs are modelled as plain string stores. Two assumptions about the page markup, which is not part of this model, are built in. First, the inputs written by element id at lines 240-243 (`cat-name`, `cat-description`, `cat-tag`, `cat-image`) are the ones `FormData` reads by name at lines 223-226 (`name`, `description`, `tag`, `image`). Second, an assigned `.value` is kept as is. A browser sanitizes the value of an `<input>`: a text input strips line breaks, and a URL input also trims surrounding whitespace. The contract `form == Prefill(cat)` holds only for values those rules leave alone.
- `CatPage.EditFlow`: it inherits both assumptions. For a record whose name, tag or image holds a line break, the source PUTs the value with the break removed (name `"a\nb"` goes out as `"ab"`), while the contract gives the value unchanged.
- `CatPage.Page.OpenCatModal`: `catForm.reset()` restores the inputs' default values from the page markup, which is not part of this model; they are taken to be empty.
- The window-click test in `setupEventListeners` (which element was clicked) is UI event dispatch. Only the `closeModals` call it makes is modelled.
