# Email template builder — a Dafny model of its document core

The editor keeps an email as a flat, ordered list of typed content modules
(text, image, button, divider, spacer, image-text, columns, code, social,
unsubscribe) plus four global settings (subject, preheader, background colour,
content width). A five-action reducer changes that document. A default factory
builds a new module of each kind. A selection wrapper tracks the module being
edited. Around this core sit a few pure decisions:

- the link normaliser every rendered URL passes through;
- the property panel's href and padding edits;
- the renderer's column widths, social icons and button fallbacks;
- the export dialog's address check, recipient parsing and file name.

The model is functional. A module is an id, a kind and a map from field names
to JSON-like values (`Value`). The document is a record of a module sequence
and a settings record. Every operation is a pure function whose contract
states what the source promises of it. Partner lemmas relate the operations to
their inverses, to the invariants they keep and to independent reference
definitions.

| file | module | what it holds |
|---|---|---|
| `wrappers.dfy` | `Wrappers` | `Option` and `Result` |
| `strings.dfy` | `Strings` | JavaScript `trim`, `\s`, ASCII case folding, `split`/`join` on one character |
| `schema.dfy` | `Schema` | kinds, field values, modules, patches, settings, state, actions, the declared field shapes of each kind |
| `builder.dfy` | `Builder` | initial state, default factory, reducer, selection-aware add/delete/find |
| `urls.dfy` | `Urls` | `sanitizeUrl` |
| `panel.dfy` | `Panel` | edit routing, button href normalisation, padding edits |
| `render.dfy` | `Render` | column widths, social icons, button fallbacks |
| `export.dfy` | `Export` | address validation, recipients, test send outcome, default and chosen file name |

Three things outside the model appear as parameters:

- The uuid the reducer generates on add is the parameter `freshId`.
- The uuid the text default carries is the parameter `textId`.
- The rendered HTML a test send carries is the parameter `html`.

An action object whose `type` is none of the five is `Unknown(type)` in
`Dispatch`.

The model follows the code as written. Two consequences are easy to miss:

- Every reducer operation works on the top-level module list only. Nothing
  finds, updates or deletes a module nested inside a column, and no column
  list is reconciled.
- The `columns` default has `columns: []` and no `layout` field.

## Model

| member | source | states |
|---|---|---|
| `Schema.ParseKind` | src/types/index.ts:79-89 | a discriminant string parses to the kind with exactly that name, and to nothing when no kind has it |
| `Schema.KindsClosed` | src/types/index.ts:79-89 | there are exactly ten kinds, each listed once with its own discriminant, and parsing a kind's discriminant gives the kind back |
| `Schema.AlignNamesClosed` | src/types/index.ts:56 | an alignment value is exactly one of `left`, `center`, `right` (the same domain as lines 18 and 38) |
| `Schema.LineStyleNamesClosed` | src/types/index.ts:69 | a divider style is exactly one of `solid`, `dashed`, `dotted` |
| `Strings.Trim` | src/utils/utils.tsx:3 | the trim has no white space at either end, keeps only characters of its input, and is empty exactly for all-white-space input |
| `Strings.TrimIsInfix` | src/utils/utils.tsx:3 | the trim is a contiguous infix of its input with only white space cut from before and after it |
| `Strings.TrimIdempotent` | src/components/ExportModal.tsx:32 | trimming twice is trimming once |
| `Strings.Split` | src/components/ExportModal.tsx:32 | `split` on one character gives at least one piece and no piece holds the separator |
| `Strings.Join` | src/components/ExportModal.tsx:32 | a list written with separators starts with its first piece, followed by the separator when there are more |
| `Strings.JoinSplit` | src/components/ExportModal.tsx:32 | joining the pieces of a split gives the input back |
| `Strings.SplitJoin` | src/components/ExportModal.tsx:32 | splitting a join of separator-free pieces gives the pieces back |
| `Builder.InitialStateFacts` | src/hooks/useEmailBuilder.tsx:25-33 | the initial document has no modules, an empty subject and preheader, background `#ffffff` and width 600 |
| `Builder.ModuleDefaults` | src/hooks/useEmailBuilder.tsx:136-242 | the factory succeeds exactly for the ten discriminants and fails with the requested type otherwise; the default's kind has the requested name, its fields conform to the kind's interface, and only the text default carries its own id |
| `Builder.DefaultsConform` | src/hooks/useEmailBuilder.tsx:136-242 | each kind's literal default holds every field its interface requires, each with the declared shape, alignment and style values included |
| `Builder.Merge` | src/hooks/useEmailBuilder.tsx:53 | a shallow merge: keys of the patch replace the module's, all other keys survive, and no key appears that neither had |
| `Builder.MergeSettings` | src/hooks/useEmailBuilder.tsx:72 | each settings field is the patch's when the patch has it and the old one otherwise |
| `Builder.TemplateReducer` | src/hooks/useEmailBuilder.tsx:35-78 | an unknown action returns the state unchanged; module actions keep the settings and the settings action keeps the modules |
| `Builder.AddModuleAppends` | src/hooks/useEmailBuilder.tsx:40-47 | add appends exactly one module at the end under the fresh id, whatever id the payload carries, and keeps the earlier modules and the settings |
| `Builder.AddModuleKeepsIdsUnique` | src/hooks/useEmailBuilder.tsx:45 | with an id no module uses, adding keeps the top-level ids unique |
| `Builder.UpdateModuleSpec` | src/hooks/useEmailBuilder.tsx:48-56 | update keeps length, order and settings; modules with another id are untouched; each matching module takes the patch's id if it has one, the patch's kind if it has one, and is shallow-merged field by field |
| `Builder.UpdateAbsentIsNoop` | src/hooks/useEmailBuilder.tsx:48-56 | updating an id no module has changes nothing |
| `Builder.UpdateKeepsIds` | src/hooks/useEmailBuilder.tsx:51-55 | a patch without an id keeps every position's id, so unique ids stay unique |
| `Builder.UpdateWhere` | src/hooks/useEmailBuilder.tsx:51-55 | the update map keeps the length, leaves every module with another id as it is and merges the patch into each module with the id |
| `Builder.RemoveId` | src/hooks/useEmailBuilder.tsx:60-62 | the delete filter never lengthens the list and keeps no module with the deleted id |
| `Builder.RemoveIdConcat` | src/hooks/useEmailBuilder.tsx:60-62 | the delete filter distributes over concatenation, so the survivors keep their order |
| `Builder.RemoveIdMembers` | src/hooks/useEmailBuilder.tsx:60-62 | a module survives deletion exactly when it was there and its id differs |
| `Builder.RemoveAbsentIsNoop` | src/hooks/useEmailBuilder.tsx:57-63 | deleting an id no module has changes nothing |
| `Builder.DeleteIdempotent` | src/hooks/useEmailBuilder.tsx:57-63 | deleting the same id twice is deleting it once |
| `Builder.DeleteModuleSpec` | src/hooks/useEmailBuilder.tsx:57-63 | delete keeps exactly the modules with another id and the settings, and is the identity when no module has the id |
| `Builder.ReorderReplaces` | src/hooks/useEmailBuilder.tsx:64-68 | reorder replaces the module list with the payload and keeps the settings |
| `Builder.UpdateSettingsSpec` | src/hooks/useEmailBuilder.tsx:69-73 | a settings update merges field by field, keeps the modules, and an empty patch changes nothing |
| `Builder.FindModule` | src/hooks/useEmailBuilder.tsx:118 | `find` returns a module with the id that no earlier module shares, and nothing exactly when no module has the id |
| `Builder.SelectedModule` | src/hooks/useEmailBuilder.tsx:117-119 | the selected module is a top-level module carrying the selected id, with no earlier module sharing that id; there is none exactly when nothing is selected or no module has the id |
| `Builder.AddModuleOp` | src/hooks/useEmailBuilder.tsx:85-91 | adding by type fails exactly for an unknown type; otherwise it appends one conforming module of that type under the fresh id and keeps the selection and settings |
| `Builder.DeleteModuleOp` | src/hooks/useEmailBuilder.tsx:100-108 | deleting by id keeps exactly the modules with another id and clears the selection exactly when the deleted id was selected |
| `Builder.FindAfterRemove` | src/hooks/useEmailBuilder.tsx:117-119 | deleting one id does not change which module `find` returns for any other id |
| `Builder.DeleteKeepsOtherSelection` | src/hooks/useEmailBuilder.tsx:100-108 | deleting a module that is not selected leaves the selection resolving to the same module |
| `Urls.SanitizeUrl` | src/utils/utils.tsx:1-6 | "" gives `#`; otherwise the result is the trimmed input when that has an http(s) scheme, and `https://` followed by the trimmed input when it has none; the result is never empty and is `#` or starts with a scheme |
| `Urls.HasSchemeExtends` | src/utils/utils.tsx:4 | the scheme test reads only the start of a string: text appended after a scheme keeps it |
| `Urls.HttpsPrefixHasScheme` | src/utils/utils.tsx:4-5 | the `https://` prefix the normaliser adds is itself a scheme the check recognises |
| `Urls.SanitizeBlank` | src/utils/utils.tsx:3-5 | white space alone gives a bare `https://` |
| `Urls.SanitizeResultIsFixed` | src/utils/utils.tsx:1-6 | every result other than `#` is left unchanged by a second pass |
| `Urls.SanitizeIdempotent` | src/utils/utils.tsx:1-6 | sanitizing a non-empty input twice is sanitizing it once |
| `Urls.SanitizeEmptyNotIdempotent` | src/utils/utils.tsx:2-5 | on "" a second pass differs: `#` becomes `https://#` |
| `Panel.PanelUpdate` | src/components/PropertyPanel.tsx:18-20 | an edit merges the patch into the modules carrying the selected id and touches nothing else; with no selected module nothing changes |
| `Panel.FindAfterUpdate` | src/hooks/useEmailBuilder.tsx:51-55 | after an update that keeps ids, `find` returns the same module as before, merged with the patch |
| `Panel.EditedSelection` | src/components/PropertyPanel.tsx:18-20 | after an edit the selection resolves to the selected module merged with the patch |
| `Panel.NormalizeHref` | src/components/PropertyPanel.tsx:284-290 | the stored href is empty exactly when the trimmed input is; a trimmed input with an http(s) scheme is stored as it is, and any other non-empty one gets `https://` in front; the stored value has a scheme when non-empty and is trimmed |
| `Panel.HrefPatch` | src/components/PropertyPanel.tsx:289 | the URL input sends a patch holding only the normalised `href` |
| `Panel.HrefAgreesWithSanitize` | src/components/PropertyPanel.tsx:285-288 | on input that is not blank the stored href equals what `sanitizeUrl` renders |
| `Panel.HrefBlankInput` | src/components/PropertyPanel.tsx:285-289 | blank input is stored as "", where `sanitizeUrl` gives `#` or `https://` |
| `Panel.HrefFixedBySanitize` | src/components/PropertyPanel.tsx:286-288 | a stored non-empty href renders unchanged |
| `Panel.NormalizeHrefIdempotent` | src/components/PropertyPanel.tsx:285-288 | re-entering a stored href stores the same value |
| `Panel.HrefEditStored` | src/components/PropertyPanel.tsx:284-290 | after a URL edit the selected button's `href` is the normalised input |
| `Panel.PaddingPatch` | src/components/PropertyPanel.tsx:198-203 | a padding edit sets the chosen side to the number typed and copies exactly the other members of the old padding |
| `Panel.PaddingEditStored` | src/components/PropertyPanel.tsx:347-352 | after a padding edit the selected module has the chosen side set and every other side as before |
| `Panel.PaddingShown` | src/components/PropertyPanel.tsx:196 | a padding input shows the side's value when it is present and truthy, and 0 when it is missing or falsy |
| `Panel.PaddingShownAfterEdit` | src/components/PropertyPanel.tsx:345-352 | after an edit the input shows the number typed, zero included |
| `Render.LayoutOf` | src/components/EditableModule.tsx:265 | the layout is the module's layout string when that is non-empty, and `"1"` when the layout is missing, empty or not a string; it is never empty |
| `Render.ParsePart` | src/components/EditableModule.tsx:266 | a blank part counts 0; a trimmed part of decimal digits counts its decimal value; a part is refused exactly when its trimmed text has a non-digit |
| `Render.ParseParts` | src/components/EditableModule.tsx:266 | the ratio parses part by part, and fails exactly when some part fails |
| `Render.ParseRatio` | src/components/EditableModule.tsx:266 | the layout splits at `:` and parses to one number per piece, each that piece's value, and fails exactly when some piece does not parse |
| `Render.Percentages` | src/components/EditableModule.tsx:270 | one value per part, each `p / total * 100` |
| `Render.SumPercentages` | src/components/EditableModule.tsx:267-270 | the percentages add up to the parts' share of the total, times 100 |
| `Render.PartWidths` | src/components/EditableModule.tsx:267-271 | no widths for a zero total; otherwise one width per part, each `p / total * 100`, all in 0..100, adding up to 100 |
| `Render.ColumnWidths` | src/components/EditableModule.tsx:264-271 | an unparseable ratio gives no widths; any non-empty width list lies in 0..100 and adds up to 100 |
| `Render.ColumnBases` | src/components/EditableModule.tsx:281-282 | one basis per column: the width at its index when there is one, and 100 past the end of the widths; all lie in 0..100, and with as many widths as columns they fill the row exactly |
| `Render.DefaultColumnsLayout` | src/hooks/useEmailBuilder.tsx:212-216 | the default columns module reads layout `"1"`, which is one full-width column, and has no column to give it to |
| `Render.LinksOf` | src/components/EditableModule.tsx:351 | one link per entry of the `links` array, carrying that entry's string `platform` and `url` ("" when not a string), and no links without an array |
| `Render.LinksMapKeys` | src/components/EditableModule.tsx:351 | a platform is in the link map exactly when some link names it |
| `Render.LinksMapLastWins` | src/components/EditableModule.tsx:351 | the map holds the url of the last link naming a platform |
| `Render.LookupUrl` | src/components/EditableModule.tsx:351-355 | a platform's url is the url of the last link naming it, and "" when no link names it |
| `Render.SocialIcons` | src/components/EditableModule.tsx:340-380 | always the six platforms in fixed order; each is an active link in its brand colour exactly when its looked-up url is non-empty, and dimmed `#B0B0B0` otherwise |
| `Render.IgnoresOtherPlatforms` | src/components/EditableModule.tsx:351-355 | a link for a platform that is not drawn changes no icon |
| `Render.LastLinkWins` | src/components/EditableModule.tsx:351 | a later link for a platform overrides an earlier one and leaves the other platforms alone |
| `Render.DefaultSocialAllDimmed` | src/hooks/useEmailBuilder.tsx:225-232 | the factory's default social module, whose links are facebook without url and twitter, draws all six icons dimmed |
| `Render.RenderButton` | src/components/EditableModule.tsx:179-211 | the label is the text when truthy and `Button` otherwise; each padding side, the border width and the radius are the module's value when truthy and 0 otherwise; alignment falls back to `left`, border colour to `transparent`, width and height to `auto`; a link exists exactly in preview and is the sanitized href |
| `Export.ValidateEmail` | src/components/ExportModal.tsx:10-13 | an accepted address has no white space and exactly one `@`, which is not first |
| `Export.ValidateEmailMatchesPattern` | src/components/ExportModal.tsx:10-13 | the scan accepts exactly the strings the regular expression describes: a non-empty local part, one `@`, a domain of non-space non-`@` characters with a dot neither first nor last |
| `Export.ValidIsTrimmed` | src/components/ExportModal.tsx:12 | an accepted address is non-empty and its own trim |
| `Export.TrimEach` | src/components/ExportModal.tsx:32 | each piece is trimmed, position by position |
| `Export.KeepNonEmpty` | src/components/ExportModal.tsx:32 | the filter keeps exactly the non-empty strings |
| `Export.KeepNonEmptyConcat` | src/components/ExportModal.tsx:32 | the filter distributes over concatenation, so the order is kept |
| `Export.Recipients` | src/components/ExportModal.tsx:32 | every recipient is non-empty, trimmed and comma-free, and the recipients are exactly the non-empty trims of the comma-separated pieces |
| `Export.RecipientsOfJoin` | src/components/ExportModal.tsx:32 | non-empty, trimmed, comma-free addresses joined with commas parse back to the same list |
| `Export.HandleTest` | src/components/ExportModal.tsx:22-43 | the sender error is set exactly when the sender is invalid, the recipient error exactly when no recipient remains or one is invalid, each with its fixed message; success, and the data sent, exactly when both pass |
| `Export.TestSendsJoinedList` | src/components/ExportModal.tsx:28-42 | valid comma-free addresses written comma-separated are sent to exactly and in order |
| `Export.SenderIsNotTrimmed` | src/components/ExportModal.tsx:28-32 | a padded address is accepted as a recipient but refused as the sender, because only recipients are trimmed |
| `Export.Slug` | src/components/ExportModal.tsx:94 | the slug has the subject's length and only `[a-z0-9-]`; a position is `-` exactly when the subject's character is not an ASCII letter or digit, and otherwise the same letter or digit |
| `Export.SlugFixedPoints` | src/components/ExportModal.tsx:94 | a string is its own slug exactly when it holds only `[a-z0-9-]` |
| `Export.SlugIdempotent` | src/components/ExportModal.tsx:94 | slugging twice is slugging once |
| `Export.DefaultFilename` | src/components/ExportModal.tsx:92-95 | the default name ends with `.html`; it is `email-template.html` for an empty subject and otherwise the subject's slug plus `.html` |
| `Export.DefaultStemIsSlug` | src/components/ExportModal.tsx:93-95 | the stem of a name built from a subject is already a slug |
| `Export.ExportFilename` | src/components/ExportModal.tsx:97-100 | a typed name wins as it is; otherwise the default name; the chosen name is never empty |

## Left out

- Rendering, styling, modal and tab state, drag-and-drop, image upload, download,
  clipboard and the sanitising HTML parser are user interface or foreign
  libraries with no behaviour to state here.
- `uuidv4` is not modelled. The reducer takes the generated id as `freshId` and
  the text default takes its own uuid as `textId`. Uniqueness of ids is a
  precondition of `Builder.AddModuleKeepsIdsUnique`, not of the reducer, which
  does not demand it.
- `console.log` in `handleTest` is the `sent` field of the outcome. The HTML it
  logs is the parameter `html`; `generateHTML` is not part of this model.
- `getEmailData`, `exportHTML`, `copyHTML`, `generateHTML`, `addModuleToColumn`,
  `reorderModulesInColumn` and `openCodeEditor` are not defined in the modelled
  files. The subject is therefore a parameter of `Export.DefaultFilename`, and
  `Export.ExportFilename` returns the name handed to `exportHTML`.
- `Schema.Value` has strings, numbers, arrays and objects only. Booleans, `null`
  and `undefined` values are not modelled; an absent key stands for `undefined`.
- Strings are sequences of Unicode code points, while JavaScript strings are UTF-16.
  A character outside the Basic Multilingual Plane is one `-` in the slug
  instead of two.
- Render.ParsePart: models `Number(part)` only for blank parts and decimal
  digits. Signs, decimals, exponents, hexadecimal and `Infinity` are read as
  `NaN`, which gives no widths. For such a layout the source would compute
  widths.
- Render.ColumnWidths: percentages are exact reals. The source computes IEEE
  doubles and formats them as `…%` strings, so its sum can miss 100 by a
  rounding error.
- Render.LayoutOf: a truthy `layout` that is not a string reads as `"1"`. The
  source would throw on `split`.
- Render.ColumnBases: does not model rendering each column's `modules`, which
  throws for a column without that member.
- Strings.Trim: its own contract does not say the result is a contiguous
  infix; `Strings.TrimIsInfix` proves that of `Trim` for every input, kept
  apart because the clause made every proof that meets `Trim` much slower.
- Render.ColumnsOf: a missing or non-array `columns` reads as no columns. The
  source calls `module.columns.map` directly and would throw.
- Render.RenderButton: padding sides, border width and radius are kept as the
  stored values; the source formats them into `…px` style strings.
- Render.LinksOf: a truthy `links` that is not an array reads as no links; the
  source would throw on `map`. A `platform` or `url` that is not a string reads
  as "".
- Render.RenderButton: background colour, text colour and the font fields are
  passed to the style unchanged and are not part of the view. The `target` and
  `rel` attributes follow `preview` as `href` does and are not modelled.
- Panel.PaddingPatch: takes the parsed integer. `parseInt` on an empty or
  non-numeric input (`NaN`) is not modelled. A `padding` that is not an object
  spreads as an empty object; the source would spread a string's characters.
- The other property-panel inputs (font size, colours, alignment, text
  content) are plain `handleUpdate` calls covered by `Panel.PanelUpdate`.
  Their `parseInt` conversions are left out like the padding one.
- The image-text and code renderers, `Preview` and `Canvas`, are not part of
  this model.
