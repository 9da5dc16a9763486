# Exam generator front end: the page logic

The application is a Next.js front end that lets teachers generate a multiple-choice
exam from uploaded PDFs with an AI model, edit it, and save it as a PDF; administrators
manage user roles. The pages are mostly fetch calls, browser storage and JSX, but each
holds a few pure data transformations. This project models those transformations in
Dafny and proves what they guarantee.

- `base.dfy`, module `Base`: `Option`, the `||` default of a string that may be null or empty,
  `Array.prototype.filter` and the subsequence relation.
- `text.dfy`, module `Text`: the JavaScript string and number primitives the pages use:
  - `toLowerCase`, restricted to ASCII;
  - `trim`, with the ECMAScript white-space and line-terminator characters;
  - `includes`, `startsWith` and `endsWith`;
  - `Number.parseInt(key, 10)`, whose result is an integer or NaN, with `===` on such numbers.
- `examen.dfy`, module `Examen`: the exam editor. It covers:
  - loading the stored exam into questions and answers;
  - the three edit operations;
  - the payload built on save, where answer ids 1-4 become letters A-D and answers are keyed by letter;
  - the download file name.
- `dashboard.dfy`, module `Dashboard`: the model catalog and its logos, the search filter, the
  automatic model choice, the PDF-only upload filter, and the multipart form of a generation request.
- `registro.dfy`, module `Registro`: the registration form's submit decision.
- `admin.dfy`, module `Admin`: the user table, the local role update after a role change, and the
  enabled/disabled state of the row buttons.

Browser storage values, HTTP outcomes and the random choice are inputs to the model: an
`Option` for a stored value that may be missing, a datatype for a request's outcome, and
nondeterministic choice (`:|`) for `Math.random`.

Two behaviours of the code are stated as lemmas because they are easy to miss:

- Two different answer keys can parse to the same id, as `"1"` and `"01"` do. Both answers are then
  loaded as correct (`Examen.CargaClavesConCero`). Distinct keys that are plain numerals do guarantee
  at most one correct answer (`Examen.CargaClavesNumerales`); in general it suffices that no two parsed
  ids are `===`, so keys that parse to NaN never clash (`Examen.CargaCorrectaUnica`).
- The editor labels an answer whose id is outside 1-4 as "D" (app/examen/page.tsx:375), but saving
  sends it as "A". The two agree exactly on ids 1-4 (`Examen.EtiquetaCoincideConLetra`).

## Model

| member | source | states |
|---|---|---|
| Examen.CargarPreguntas | app/examen/page.tsx:91-99 | one question per stored item, in order, numbered 1..n, with the item's text and its answers loaded from the item's entries |
| Examen.CargarRespuestas | app/examen/page.tsx:94-98 | one answer per entry, in entry order; its id is `parseInt` of the key, its text the value, and it is correct iff the id is `===` to the item's `correcta` (a NaN id never is) |
| Examen.CargaCorrectaUnica | app/examen/page.tsx:94-98 | when no two parsed ids are `===` (NaN ids never are), at most one answer loads as correct |
| Examen.CargaSinCorrecta | app/examen/page.tsx:94-98 | when no key parses to `correcta`, no answer loads as correct and the saved letter is "A" |
| Examen.CargaClavesNumerales | app/examen/page.tsx:94-98 | distinct keys that are decimal numerals load with at most one answer marked correct |
| Examen.CargaClavesConCero | app/examen/page.tsx:94-98 | the distinct keys "1" and "01" with `correcta` 1 load two correct answers |
| Text.ParseInt | app/examen/page.tsx:95 | `parseInt(key, 10)` yields a number exactly when a digit follows the leading white space and optional sign; otherwise NaN |
| Text.ParseIntDigits | app/examen/page.tsx:95 | a non-empty string of digits parses to its decimal value |
| Text.ParseIntDecimal | app/examen/page.tsx:95 | parsing the decimal numeral of n gives n back |
| Text.ParseIntLeadingZero | app/examen/page.tsx:95 | "1" and "01" are different keys that parse to the same number 1 |
| Base.OrElse | app/examen/page.tsx:66-68 | the JavaScript or-default keeps a stored string that is non-null and non-empty, and gives the fallback otherwise |
| Examen.CargarMetadatos | app/examen/page.tsx:58-79 | title, subject and description are never empty; missing or unparseable metadata gives the three default texts; each non-empty stored field is kept, and each missing or empty one gets its own default |
| Examen.CargarEditor | app/examen/page.tsx:43-104 | no token leads to the login page; a token without an exam id leads to the dashboard; otherwise the editor opens with the loaded metadata and the questions loaded from the stored data, or none when that data is absent or unparseable |
| Examen.ActualizarTextoPregunta | app/examen/page.tsx:107-109 | only the texts of questions with the given id change; ids, answers, length and order are kept |
| Examen.ActualizarRespuestas | app/examen/page.tsx:117 | only the texts of answers whose id is `===` to the given id change; ids and correct flags are kept |
| Text.StrictEquals | app/examen/page.tsx:97 | no contract; `===` on parsed ids, where NaN equals nothing, not even itself; the same test at lines 117 and 132; `Examen.CargarRespuestas`, `Examen.ActualizarRespuestas` and `Examen.MarcarRespuestas` state what it decides |
| Base.IsTruthy | app/examen/page.tsx:45 | no contract; the `!token` test, the same at line 50 for the exam id and at app/admin/page.tsx:83; `Examen.CargarEditor` and `Admin.CambiarRol` state its outcome |
| Examen.ActualizarTextoRespuesta | app/examen/page.tsx:111-122 | only the answers of the matching question are edited; question ids and texts and every other question are kept |
| Examen.MarcarRespuestas | app/examen/page.tsx:130-133 | afterwards an answer is correct iff its id is `===` to the marked id; ids and texts are kept |
| Examen.MarcarRespuestaCorrecta | app/examen/page.tsx:124-138 | only the answers of the matching question are re-marked; every other question is kept |
| Examen.MarcarExactamenteUna | app/examen/page.tsx:124-138 | with unique ids, marking an id that occurs leaves exactly one correct answer, and marking an absent id leaves none |
| Examen.Letra | app/examen/page.tsx:156-171 | no contract; the `switch` of the save handler, also used at lines 187-200; `Examen.LetraTotal` and `Examen.LetraInyectiva` characterise it |
| Examen.LetraTotal | app/examen/page.tsx:156-171 | every id gets one of A-D; on ids 1-4 the letter maps back to the id; every other id, NaN included, gets "A" |
| Examen.LetraInyectiva | app/examen/page.tsx:187-200 | on ids 1-4, two ids share a letter iff they are equal |
| Examen.Etiqueta | app/examen/page.tsx:375 | no contract; the label shown beside each answer; `Examen.EtiquetaCoincideConLetra` relates it to `Examen.Letra` |
| Examen.EtiquetaCoincideConLetra | app/examen/page.tsx:375 | the editor's label and the saved letter agree exactly when the id is in 1-4 |
| Examen.PrimeraCorrecta | app/examen/page.tsx:153 | `find` returns the first correct answer, and nothing only when no answer is correct |
| Examen.LetraCorrecta | app/examen/page.tsx:151-172 | the saved letter is that of the first correct answer, and "A" when no answer is correct |
| Examen.RespuestasCorrectas | app/examen/page.tsx:151-178 | one entry per question, in order, carrying the question id and its correct letter |
| Examen.RespuestasFormateadas | app/examen/page.tsx:183-202 | no contract; the `forEach` that keys answer texts by letter; `Examen.FormatoSemantica` characterises it |
| Examen.FormatoSemantica | app/examen/page.tsx:183-202 | the letter-keyed map has a key exactly for each letter some answer maps to, and under it the text of the last answer with that letter |
| Examen.FormatoClaves | app/examen/page.tsx:183-202 | the keys of the letter-keyed map are exactly the letters of the answers |
| Examen.FormatoValores | app/examen/page.tsx:183-202 | the answer that is last with its letter has its text saved under that letter |
| Examen.PreguntasConRespuestas | app/examen/page.tsx:181-209 | one entry per question, in order, carrying its id, its text and its letter-keyed answers |
| Examen.GuardarExamen | app/examen/page.tsx:146-224 | the metadata is always written back; a request body exists iff a token is stored, and it carries the exam id, the metadata, the correct letters and the letter-keyed questions |
| Examen.MetaIdaYVuelta | app/examen/page.tsx:147-148 | saving and then reloading gives each metadata field back, except that an emptied field reloads as its default |
| Examen.AbrirYGuardar | app/examen/page.tsx:43-224 | opening the editor on a stored exam and saving it unedited writes the loaded metadata back and sends the exam id, the loaded title, subject and description, and every stored question in order, numbered from 1 with its own text |
| Examen.NombreDescarga | app/examen/page.tsx:250-259 | the file name contains no quotes; it is "examen.pdf" without a header or without a non-empty capture, and otherwise the capture with its quotes removed |
| Examen.SinComillas | app/examen/page.tsx:257 | removing quotes keeps every non-quote character as many times as it occurs, in order, and nothing else |
| Examen.SinComillasIdempotente | app/examen/page.tsx:257 | removing quotes a second time changes nothing |
| Examen.NombreDescargaVacio | app/examen/page.tsx:255-258 | a capture made only of quotes passes the check and gives an empty file name |
| Examen.PrimeraCorrectaPorBanderas | app/examen/page.tsx:153 | the first correct answer depends only on the correct flags |
| Examen.LetraCorrectaSinTextos | app/examen/page.tsx:151-178 | the saved letter depends only on the answers' ids and flags, not their texts |
| Examen.FormatoSinBanderas | app/examen/page.tsx:181-209 | the letter-keyed answers depend only on ids and texts, not on the correct flags |
| Examen.EditarPreguntaEnGuardado | app/examen/page.tsx:107-109 | editing a question's text leaves the correct letters as they were and changes only that question's text in the saved questions |
| Examen.EditarRespuestaEnGuardado | app/examen/page.tsx:111-122 | editing an answer's text leaves the saved correct letters unchanged |
| Examen.EditarRespuestaEnFormato | app/examen/page.tsx:111-122 | with ids in 1-4, editing the text of an id that occurs replaces exactly the text under that id's letter |
| Examen.MarcarEnFormato | app/examen/page.tsx:124-138 | marking an answer leaves all letter-keyed answers unchanged |
| Examen.MarcarEnGuardado | app/examen/page.tsx:124-138 | after marking, the question's saved letter is the marked id's letter if that id occurs, otherwise "A"; other questions keep their letters |
| Examen.FormatoSinColision | app/examen/page.tsx:183-202 | with unique ids in 1-4, no letter is shared and each answer's text is saved under its own letter |
| Examen.FormatoClavesEnRango | app/examen/page.tsx:183-202 | whatever the ids, the saved answers are keyed by A-D only |
| Examen.FormatoClavesPresentes | app/examen/page.tsx:183-202 | when ids 1, 2, 3 and 4 all occur, all of A, B, C and D are keys |
| Examen.FormatoCompleto | app/examen/page.tsx:183-202 | with ids exactly 1, 2, 3, 4, the keys are exactly A, B, C, D, each holding its answer's text |
| Examen.FormatoColision | app/examen/page.tsx:183-202 | a later answer with the same letter overwrites the earlier one: ids 1 and 7 both land on "A", and the text of id 7 is kept |
| Examen.FormatoEnOrden | app/examen/page.tsx:185-202 | answers with ids 1, 2, 3, 4 in this order are saved as A, B, C, D |
| Examen.CargaUnoACuatro | app/examen/page.tsx:94-98 | the keys "1" to "4" load as the answer ids 1 to 4 |
| Examen.CargaFormato | app/examen/page.tsx:94-98 | entries keyed "1" to "4" save their texts under A, B, C and D in that order |
| Examen.CargaLetraCorrecta | app/examen/page.tsx:94-98 | entries keyed "1" to "4" with `correcta` in 1-4 save the letter of `correcta` |
| Examen.CargarYGuardar | app/examen/page.tsx:91-209 | an item with keys "1" to "4" and `correcta` in 1-4 saves back its own texts under A-D and the letter of its correct answer |
| Dashboard.Logo | app/dashboard/page.tsx:55-65 | no contract; the if-chain on the lower-cased name; `Dashboard.LogoPorTabla` and `Dashboard.LogoPrecedencia` characterise it |
| Dashboard.PrimerLogo | app/dashboard/page.tsx:55-65 | the logo of the first keyword in the table that the name contains, and the fallback when none matches |
| Dashboard.LogoPorTabla | app/dashboard/page.tsx:55-65 | the if-chain on the lower-cased name is the first-match search over (claude, grok, gemini) with the GPT logo as fallback |
| Dashboard.LogoPrecedencia | app/dashboard/page.tsx:57-65 | a name containing "claude" gets the Claude logo whatever else it contains; "grok" wins over "gemini"; the GPT logo is chosen iff no keyword occurs |
| Dashboard.LogoSinMayusculas | app/dashboard/page.tsx:55 | names that are equal up to case get the same logo |
| Text.Contains | app/dashboard/page.tsx:57 | no contract; `includes` as a left-to-right scan; `Text.ContainsIffOccurs` characterises it |
| Text.ContainsIffOccurs | app/dashboard/page.tsx:57 | `includes` holds exactly when the substring occurs at some index |
| Text.OccursContains | app/dashboard/page.tsx:57 | an occurrence at any index makes `includes` true |
| Text.ContainsOccurs | app/dashboard/page.tsx:57 | when `includes` is true, it returns an index where the substring occurs |
| Dashboard.Catalogo | app/dashboard/page.tsx:53-67 | one model per backend pair, in entry order, with name and value preserved and the logo of its name |
| Dashboard.CatalogoPorLogos | app/dashboard/page.tsx:53-67 | a model list that matches the entries and whose logos follow the logo rule is the catalog of those entries |
| Dashboard.CatalogoDeEjemploCoherente | app/dashboard/page.tsx:73-78 | the hand-written fallback catalog has the logos the rule would choose, so it equals the catalog of its own entries |
| Dashboard.CargarCatalogoCoherente | app/dashboard/page.tsx:52-78 | whether or not the request succeeds, the list shown is the catalog of some entries, and every model has the logo its name calls for |
| Dashboard.CargarCatalogo | app/dashboard/page.tsx:52-78 | a failed request gives the fallback catalog; a successful one gives the catalog of the returned entries |
| Base.Filter | app/dashboard/page.tsx:83 | `filter` keeps exactly the elements satisfying the test, with the same multiplicities, as a subsequence, and keeps everything iff everything passes |
| Dashboard.Filtrar | app/dashboard/page.tsx:82-84 | the result is a subsequence of the models holding exactly those whose lower-cased name contains the lower-cased term; an empty term keeps all models |
| Dashboard.FiltrarSinMayusculas | app/dashboard/page.tsx:83 | searching a term and its lower-cased form gives the same list |
| Dashboard.PrimerPreferido | app/dashboard/page.tsx:93 | `findIndex` gives the first model whose lower-cased name contains "chat gpt 4.5 preview", and -1 (None) only when no model does |
| Dashboard.EsGpt4 | app/dashboard/page.tsx:100 | no contract; the lower-cased name starts with "chat gpt 4."; `Dashboard.AutoSeleccion` states that a candidate is picked whenever one exists |
| Text.StartsWith | app/dashboard/page.tsx:100 | no contract; `startsWith` as a prefix comparison; `Dashboard.AutoSeleccion` uses it through `Dashboard.EsGpt4` |
| Dashboard.AutoSeleccion | app/dashboard/page.tsx:86-110 | nothing happens iff auto-select is off or the list is empty; otherwise the first preferred model is chosen, else some "chat gpt 4." model, else some model; the choice is always in the list |
| Dashboard.SeleccionEsMiembro | app/dashboard/page.tsx:86-110 | every outcome the rule allows selects a model of the filtered list |
| Dashboard.EsPdf | app/dashboard/page.tsx:241 | no contract; the PDF test, the same at line 264; `Dashboard.AgregarPdfs` states what it keeps |
| Dashboard.AgregarPdfs | app/dashboard/page.tsx:237-247 | the previous files stay as a prefix; the appended files are the dropped PDFs, in order, each as many times as it was dropped; the alert fires iff a file was rejected |
| Dashboard.AlElegir | app/dashboard/page.tsx:260-270 | no file list changes nothing and raises no alert; otherwise the input behaves as a drop |
| Dashboard.AgregarSoloPdfs | app/dashboard/page.tsx:240-246 | a selection of PDFs only is appended whole and raises no alert |
| Dashboard.Generar | app/dashboard/page.tsx:125-138 | nothing is sent iff no model is selected, there are no files, or a generation is running; otherwise the fields are model, type, then one `files` entry per file in order |
| Dashboard.CamposDeArchivos | app/dashboard/page.tsx:136-138 | one `files` field per file, in order, with the file's own name |
| Dashboard.ArchivosDeCampos | app/dashboard/page.tsx:136-138 | reading the `files` entries back gives the file list |
| Dashboard.GenerarIdaYVuelta | app/dashboard/page.tsx:133-138 | reading the form back gives the selected model's identifier, the type, and exactly the files in order |
| Dashboard.BotonSegunGuarda | app/dashboard/page.tsx:365 | the "Crear examen" button is disabled exactly when clicking it would send nothing |
| Dashboard.BotonCrearDeshabilitado | app/dashboard/page.tsx:365 | no contract; the `disabled` expression of "Crear examen"; `Dashboard.BotonSegunGuarda` ties it to the guard of `Dashboard.Generar` |
| Registro.NormalizarMail | app/register/page.tsx:41 | the normalised mail is the lower-cased mail with only white space cut from both ends; it has no upper-case letter and neither starts nor ends with white space |
| Text.ToLower | app/register/page.tsx:41 | the result has the input's length and each character is the ASCII lower-case form of the input's |
| Text.Trim | app/register/page.tsx:41 | no contract; `trim`; `Text.TrimIsSlice` and `Text.TrimEdges` characterise it |
| Text.TrimLower | app/register/page.tsx:41 | lower-casing and trimming commute |
| Text.TrimIdempotent | app/register/page.tsx:41 | trimming twice is trimming once |
| Text.TrimIsSlice | app/register/page.tsx:41 | `trim` cuts the string into white space, the result and white space |
| Text.TrimEdges | app/register/page.tsx:41 | the trimmed string neither starts nor ends with white space |
| Registro.EnviarFormulario | app/register/page.tsx:24-59 | a stored token redirects and leaves the form loading; otherwise a password mismatch is reported first; then a mail not ending in "@educa.jcyl.es" is reported; a request is sent iff both checks pass, with the name, the password and the normalised mail |
| Registro.NormalizarIdempotente | app/register/page.tsx:41 | normalising a normalised mail changes nothing |
| Registro.ReenvioMismoCuerpo | app/register/page.tsx:41-59 | resubmitting with the mail that was sent sends the same body |
| Registro.MailSinMayusculas | app/register/page.tsx:41-42 | the mail check does not depend on case or on surrounding white space |
| Text.EndsWith | app/register/page.tsx:42 | no contract; `endsWith` as a suffix comparison, also the ".pdf" test at app/dashboard/page.tsx:241 and 264; `Registro.EnviarFormulario` and `Registro.MailSinMayusculas` state what the mail check decides |
| Admin.CargarUsuarios | app/admin/page.tsx:65-70 | one user per backend record, in order, with id, name, mail and role copied field by field |
| Admin.CargarUsuariosSinPerdida | app/admin/page.tsx:65-70 | each user maps back to the record it came from |
| Admin.ActualizarRol | app/admin/page.tsx:97 | only the role of users with the given id changes; length, order and all other fields are kept |
| Admin.ActualizarRolIdempotente | app/admin/page.tsx:97 | applying the same role change twice is applying it once |
| Admin.ActualizarRolSinEfecto | app/admin/page.tsx:97 | giving users the role they already have changes nothing |
| Admin.CambiarRol | app/admin/page.tsx:82-101 | no token: no request and no change; otherwise the PUT carries id and role; a resolved request updates the list, and a rejected one leaves it and raises the alert |
| Admin.EstadoIgnorado | app/admin/page.tsx:86-97 | the outcome is the same whatever HTTP status the PUT resolves with |
| Admin.AplicarCambioCapturado | app/admin/page.tsx:82-101 | as written: a settled change replaces the shown list with the rendered list as of the click, updated; without a token or after a rejection the shown list stays |
| Admin.AplicarCambio | app/admin/page.tsx:97 | the functional update: a settled change updates the list shown at that moment; without a token or after a rejection it stays |
| Admin.SinSolapeCoinciden | app/admin/page.tsx:82-101 | when nothing changed since the click, the two readings give the same list |
| Admin.ActualizarRolConmuta | app/admin/page.tsx:97 | role changes to different users commute |
| Admin.CambiosSolapadosFuncional | app/admin/page.tsx:97 | with the functional update, two settled changes to different users give the same list in either order, and each user has the role sent for them |
| Admin.CambiosSolapados | app/admin/page.tsx:86-97 | as written, promoting user 1 and demoting user 2 from the same rendered list, promotion settling first, shows user 1 as NORMAL again; with the functional update both changes show |
| Admin.Deshabilitado | app/admin/page.tsx:171-180 | no contract; the `disabled` attributes of the row buttons; `Admin.DeshabilitadoSiRolActual` characterises it |
| Admin.RolDeBoton | app/admin/page.tsx:170-188 | no contract; the role each button passes to `cambiarRol` (lines 170, 179 and 188); `Admin.PulsarBoton` and `Admin.DeshabilitadoSiRolActual` use it |
| Admin.DeshabilitadoSiRolActual | app/admin/page.tsx:166-191 | "Hacer administrador" and "Hacer usuario normal" are disabled iff the user already has the role they send; delete is never disabled |
| Admin.PulsarBoton | app/admin/page.tsx:166-191 | after a button's change resolves, the user has the button's role, so a promote or demote button just used becomes disabled, and a deleted user has both enabled |

## Left out

- All requests and their response handling are left out. This covers the catalog fetch, the exam
  creation request with the storage writes after it, the save request, the registration request,
  the user list request and the role PUT. Their outcomes appear only as inputs (`Option`, `RespuestaPut`),
  because the backend is not part of this model.
- Browser storage and navigation are left out. `localStorage` reads are inputs, and redirects are
  outcome tags.
- React state, effects, JSX rendering and the carousel settings are left out; they are presentation.
- The PDF blob download and object URLs are left out, because they are browser APIs.
- Examen.NombreDescarga: the `content-disposition` regular expression is the parameter `captura`,
  because JavaScript regular expression semantics are not modelled.
- Dashboard.AutoSeleccion: `Math.random` is nondeterministic choice, so the contract states
  membership and not which element is picked.
- Text.ToLower: only ASCII letters are lower-cased, so Unicode case mapping is not modelled.
- Text.ParseInt: the result is an exact integer. JavaScript's rounding of numerals beyond 2^53
  to the nearest double is not modelled.
- Examen.CargarEditor: `examData` is `None` when it is missing, is not JSON, or makes `arr.map` or
  `Object.entries` throw (app/examen/page.tsx:91-101), as for a non-array value or an item whose
  answers are null. Other shapes load without error in the source and are outside the model's types:
  - a `pregunta`, answer text or metadata field that is not a string is copied as it is;
  - a `correcta` that is not a number (say the string "2") matches no key, so no answer loads as correct
    and saving sends "A". That is the outcome `Examen.CargaSinCorrecta` states for an integer
    `correcta` that no key parses to.
- Admin.CambiarRol: `us` is the list rendered when the button was clicked. The update at
  app/admin/page.tsx:97 is built from that list after the request resolves, so when two changes
  overlap the one that resolves last overwrites the other's local update. `Admin.AplicarCambioCapturado`
  and `Admin.CambiosSolapados` model this, and the row under "## Findings" records it.
- Examen.CargarRespuestas and Admin.CargarUsuarios: the order of `Object.entries` and `Object.values`
  is not derived. JavaScript lists integer-like keys first in ascending order, then the other keys in
  insertion order; the model takes the entries in any order it is given, and its lemmas hold for
  every order.
- The unused `handleFileDrop` and `handleFileInput` (app/dashboard/page.tsx:112-123) are left out,
  because no element of the page calls them.
- The administrator flag on the dashboard (`rol == "2"`, app/dashboard/page.tsx:38-39) is left out.
  So is the admin page's mount redirect (app/admin/page.tsx:29-39), which is navigation only.
- The success and error messages after the registration request (app/register/page.tsx:61-77) are
  left out; they depend on the response.
- app/login/page.tsx, app/page.tsx, app/layout.tsx and next.config.js are not part of this model.
  They hold markup, proxy configuration and a login check wrapped in request handling.

## Findings

| source | as written | input that shows it | evidently intended | confidence | as-written member | corrected member |
|---|---|---|---|---|---|---|
| app/admin/page.tsx:97 | after the PUT resolves, the new list is built from `usuarios` as rendered when the button was clicked | users 1 (NORMAL) and 2 (ADMIN); promote 1, then demote 2 before the first PUT resolves; both resolve, promotion first; user 1 is shown as NORMAL | each settled change updates the list shown at that moment (a functional update), so both changes show | high, not executed | Admin.CambiosSolapados | Admin.CambiosSolapadosFuncional |
