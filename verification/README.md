# Event portal form: step wizard, conditional fields, table export and saved events

This project models the logic of the event-registration page script `app.js`
in Dafny. The page walks a user through a set of panels (the step wizard) and
gates leaving the first panel, "Event Details", on its required controls. It
shows or hides two conditional sections: the online-meeting link, which
follows the event mode, and the funding inputs, which follow the
financial-support answer. It renders a preview table of the form and exports
it, or any saved event, as a paginated A4 table PDF. Submitted events are kept
as a list in browser storage.

DOM access, drawing and storage are replaced by values:
- A form control is `Gate.Control`, with a key, a value and a `required` flag.
- The conditional sections are `Conditional.LinkRow` and `Conditional.Funding`.
- The wizard is `Wizard.Wizard`, holding the step and the panel and icon counts. The screen is the `Wizard.View` that `ShowStep` projects from it.
- A `FormData` snapshot is a sequence of `Records.Field`.
- A stored event is an ordered `Records.Record`, with unique keys in first-appearance order, as a JavaScript object keeps them.
- The storage slot is `Records.Slot`. It is absent, empty text, a parsed list, or unparsable.
- A PDF is a `Pdf.Document`: the file name, one `(page, y, row)` placement per row, the page count, and the page carrying the footer.

Modules: `Common` (Option, Result, error kinds), `Text` (the `[A-Z]` class,
ASCII upper-casing, ECMAScript whitespace and `trim`), `Labels`, `Gate`,
`Conditional`, `Wizard`, `Records`, `Pdf`, `Export`, `Portal`.

Three behaviours of the code are worth noting:
- A stored payload that does not parse is not tolerated. `JSON.parse` throws, so submit, delete and saved-record export stop before changing anything (`Records.Load` returns `Err(MalformedPayload)`).
- The footer is drawn once, after the row loop, so only the last page has it (`Pdf.Render`).
- The page-break test looks at the current cursor (`y > 270` before drawing), not at the row after it. A row can therefore sit with its baseline at exactly 270.

## Model

| member | source | states |
|---|---|---|
| Text.TrimEmptyIffBlank | app.js:30 | `!value.trim()` holds exactly when every character of the value is ECMAScript whitespace (with `Text.BlankIffAllSpace`) |
| Text.BlankIffAllSpace | app.js:30 | the blank test is the same as "all characters are whitespace" |
| Gate.FirstIncomplete | app.js:27-37 | the result is the first required control, in document order, whose trimmed value is empty; `None` exactly when there is none |
| Gate.PassesIffFilled | app.js:27-37 | the panel passes exactly when every required control has a non-whitespace character |
| Gate.OptionalControlsIgnored | app.js:28 | changing the values of controls without the `required` flag never changes the gate's answer |
| Gate.BlankTitleReported | app.js:27-37 | a whitespace-only required title is reported, even when the coordinator is filled |
| Conditional.OnModeChange | app.js:19-24 | afterwards the link row is shown, and its input is required, exactly when the mode is `Online`; the value is kept when online and blanked otherwise |
| Conditional.ModeChangeFixesExactlyConsistent | app.js:19-24 | the handler leaves a row unchanged exactly when it already agrees with the mode, so running it twice is the same as running it once |
| Conditional.LinkBlocksIffOnlineAndBlank | app.js:19-37 | after the handler, the link stops the Event Details gate exactly when the mode is online and the link is blank |
| Conditional.ToggleFunding | app.js:155-164 | the section is shown exactly when the checked answer is `yes`; every input's required flag equals that; hiding blanks every input, showing keeps the values; keys and count are kept |
| Conditional.ToggleFixesExactlyConsistent | app.js:155-164 | the toggle leaves a section unchanged exactly when it already agrees with the answer, and is idempotent |
| Conditional.MissingSelectionIsNo | app.js:156-157 | no checked radio button gives the same result as any answer other than `yes` |
| Conditional.FundingGate | app.js:155-164 | a hidden section passes both form checks; a shown one passes the Event Details gate (when the section is on the first panel) exactly when no input is blank, and the browser's required check at submit exactly when no input is empty |
| Wizard.Init | app.js:147 | the page starts on the first panel |
| Wizard.ShowStep | app.js:40-54 | only the current panel is displayed; icons before the step are completed and the current one active; the progress bar reads `step + 1` out of the panel count; previous shows past the first panel; submit shows, next hides and the preview is rebuilt exactly on the last panel |
| Wizard.OnePanelShown | app.js:41 | on a valid wizard exactly one panel is shown, the current one; on an invalid step none is |
| Wizard.IconsTrail | app.js:43-46 | icons before the step are completed, the current one is active, later ones are plain, and no icon is both |
| Wizard.ControlsFollowStep | app.js:48-53 | the progress bar reads `step + 1` out of the panel count; submit is offered, and the preview rebuilt, exactly on the last step; next is offered exactly on the other steps; previous is offered on every step but the first |
| Wizard.Next | app.js:56-60 | on the first panel with an incomplete control the step is unchanged and that control is reported; otherwise the step grows by exactly one and nothing is reported |
| Wizard.Prev | app.js:62-65 | the step drops by exactly one and stays on a panel |
| Wizard.Jump | app.js:67-77 | a jump past the first panel with an incomplete first panel is refused without moving; any other jump, including one to the first panel, lands on the target |
| Wizard.Reset | app.js:186-188 | submit puts the wizard back on the first panel |
| Wizard.Apply | app.js:56-77 | every action leaves the step on a panel; a submit, from any panel, resets the step exactly when its handler runs through, and otherwise leaves it |
| Wizard.RunKeepsInvariant | app.js:40-77 | after any sequence of actions the step is on a panel and the screen shows exactly that panel |
| Wizard.LeavingStartNeedsCompleteDetails | app.js:56-77 | leaving the first panel takes a next or icon click whose first panel passes the gate |
| Wizard.StuckWhileIncomplete | app.js:56-77 | while every next or icon click carries an incomplete first panel, a session that starts on it never leaves it |
| Wizard.NextRefusedOnBlankTitle | app.js:56-60 | a blank required title keeps the wizard on the first panel and reports the title |
| Labels.SpaceBeforeCaps | app.js:96 | the replacement adds one character per capital and leaves a key without capitals unchanged |
| Labels.PreviewLabel | app.js:96 | the preview label has `|key| + #capitals(key)` characters and no lower-case letter |
| Labels.PreviewLabelCons | app.js:96 | the preview label is built character by character: a space and the capital for a capital, the upper-cased character otherwise |
| Labels.PreviewLabelInjective | app.js:96 | distinct space-free keys get distinct preview labels |
| Labels.SavedLabelAsWritten | app.js:225 | the saved-record label has `|key|` characters, a space wherever the key has a capital, the upper-cased key character elsewhere, and no lower-case letter |
| Labels.LabelsAgreeIffNoCaps | app.js:225 | the saved-record label equals the preview label exactly when the key has no capital |
| Labels.SavedLabelForgetsCapitals | app.js:225 | keys that differ only in which capital letters they have get the same saved-record label |
| Labels.SavedLabelLosesLetters | app.js:225 | `startDate` is labelled `START ATE` and not `START DATE`; `endDate` and `endGate` get the same label |
| Labels.OrDash | app.js:225 | the shown value is never empty: an empty value becomes `-` and any other value is kept |
| Records.Put | app.js:179 | assigning a key adds it to the key set; a new key goes at the end; an existing key keeps the record's length |
| Records.PutLookup | app.js:179 | after the assignment the key reads as the new value and every other key reads as before |
| Records.PutUnique | app.js:179 | the assignment keeps keys unique and every existing key in its position |
| Records.Normalize | app.js:178-179 | the record has unique keys, exactly the snapshot's keys |
| Records.NormalizeDistinct | app.js:179 | with distinct keys, entry `i` of the record is entry `i` of the snapshot, with a file value replaced by its name and a text value unchanged |
| Records.NormalizeLastWins | app.js:179 | a repeated key holds the value of its last occurrence |
| Records.Load | app.js:181 | a missing or empty payload reads as the empty list, a parsed one as its list, and an unparsable one is an error |
| Records.Splice | app.js:218 | `splice(index, 1)` removes the element at an index in range, counts a negative index from the end, and removes nothing past the end |
| Records.SpliceKeepsOthers | app.js:216-219 | removing index `i` keeps the earlier elements in place, shifts the later ones down by one, and drops exactly one occurrence of the removed record |
| Records.Append | app.js:181-183 | the append fails exactly on an unparsable payload, and otherwise writes a parsed list |
| Records.Delete | app.js:216-219 | the delete fails exactly on an unparsable payload, and otherwise writes a parsed list |
| Records.AppendThenLoad | app.js:181-183 | loading after a submit gives the earlier list followed by the normalized snapshot |
| Records.DeleteThenLoad | app.js:216-219 | loading after a delete at a listed index gives the earlier list without exactly that record, with the others in order |
| Records.SubmitThenDelete | app.js:176-219 | one event submitted into an empty store is stored with its file as a name; deleting index 0 empties the store |
| Pdf.Layout | app.js:123-138 | the table places each row once, in order, with its baseline between 25 and 270, the first row on the first page at 30 |
| Pdf.Place | app.js:126-138 | each row is placed once, in order, with its baseline between 25 and 270 and never on an earlier page than the cursor's |
| Pdf.PlaceSteps | app.js:126-138 | the next row goes 8 mm lower on the same page, or to the top of a new page exactly when the cursor has passed 270 |
| Pdf.LayoutSteps | app.js:123-138 | the table starts on the first page at 30; rows keep their order and stay within bounds; a new page begins exactly when the cursor passes 270 |
| Pdf.LayoutClosedForm | app.js:123-138 | row `i` lands on page `i / 31`, at `30 + 8 * (i % 31)` on the first page and at `25 + 8 * (i % 31)` on later ones |
| Pdf.BoxesFitThePage | app.js:121-142 | every cell box ends above the footer; first-page boxes start below the title rule; boxes on one page touch without overlapping |
| Pdf.PageCountClosedForm | app.js:126-142 | the document has `(rows - 1) / 31 + 1` pages (one for an empty table), and every row is on one of them |
| Pdf.Underscores | app.js:144 | the file stem has the title's length, no spaces, an underscore where the title has a space, and the title's character elsewhere |
| Pdf.FileName | app.js:144 | the file name has the title's length plus 4, no spaces, and ends in `.pdf` |
| Pdf.Render | app.js:114-145 | the document has the computed file name and the rows laid out in order; it has `(rows - 1) / 31 + 1` pages (one for an empty table), every row is on one of them, and the footer is on the last page, the one the last row is on |
| Pdf.FortyRowsTwoPages | app.js:114-145 | forty rows take two pages: row 31 sits at 270 on page 1, row 32 at 25 on page 2, and only page 2 has the footer |
| Pdf.PreviewReportFileName | app.js:144 | the two reports are saved as `EVENT_PREVIEW_REPORT.pdf` and `EVENT_REPORT.pdf` |
| Export.PreviewCellAsWritten | app.js:84-92 | a text value is shown as itself, or as `-` when empty; a chosen file becomes a download link |
| Export.PreviewCell | app.js:84-92 | a chosen file becomes a download link; every other value is shown as text |
| Export.PreviewMatchesSavedValue | app.js:84-92 | every preview cell presents the same non-empty value that the saved-record report will show for it |
| Export.EmptyFileShownAsObject | app.js:87-92 | an empty file input is shown as `[object File]` instead of `-`; on every other input the preview as written agrees with the corrected cell |
| Export.CellText | app.js:107-110 | a text cell reads back as its text; a link reads back as `Download ` followed by the file name |
| Export.RowsNeverEmpty | app.js:84-99 | no exported value cell is empty, and no label is shorter than its key, from either source |
| Export.PreviewPdf | app.js:84-112 | the preview exports as `EVENT_PREVIEW_REPORT.pdf`; row `i` carries the preview label of key `i` and the text of its cell as written, `[object File]` for an empty file input included |
| Export.SavedPdf | app.js:223-227 | exporting a saved event fails on an unparsable payload or a missing index, and otherwise saves `EVENT_REPORT.pdf` whose row `i` carries the label as written (a space for each capital) of entry `i` and its value or `-` |
| Export.LayoutSameIffRowsSame | app.js:126-138 | two tables are laid out the same exactly when they have the same rows |
| Export.PreviewRows | app.js:84-99 | row `i` of the preview carries the preview label of key `i`; a text value reads as itself or `-`, an empty file input as `[object File]`, a chosen file as `Download ` and its name |
| Export.SavedRows | app.js:225 | row `i` of a saved report carries the label as written of key `i`, and its value, or `-` when the value is empty |
| Export.RowAgreesIff | app.js:225 | for every entry, its saved-report row equals its preview row exactly when its key has no capital and its value is text |
| Export.CorrectedRowAgreesIff | app.js:84-99 | with the corrected label and cell, an entry's two rows agree exactly when its value is not a chosen file |
| Export.SavedRowMatchesPreviewRow | app.js:225 | for a form with distinct keys, row `i` of the saved report as written equals row `i` of its preview exactly when key `i` has no capital and value `i` is text |
| Export.SavedRowsMatchPreviewRows | app.js:225 | for a form with distinct keys, the saved rows as written equal the preview rows exactly when no key has a capital and every value is text |
| Export.CorrectedRowMatches | app.js:84-99 | for a form with distinct keys, corrected row `i` of the two tables agrees exactly when value `i` is not a chosen file |
| Export.CorrectedRowsMatch | app.js:84-99 | for a form with distinct keys, the corrected rows agree exactly when no value is a chosen file |
| Export.SavedReportMatchesPreviewAsWritten | app.js:223-227 | as written, the report of a just-submitted form with distinct keys places the same rows as its preview exactly when no key has a capital and every value is text |
| Export.SavedReportMatchesPreview | app.js:223-227 | with the corrected label and cell, the report of a just-submitted form with distinct keys places the same rows, in the same order, as its preview exactly when no value is a chosen file |
| Portal.Submit | app.js:176-190 | submit changes nothing exactly when a required control is empty (the browser does not fire the event) or the payload is unparsable; otherwise the stored list gains the normalized snapshot at the end and the wizard is back on the first panel |
| Portal.SubmitMatchesWizardAction | app.js:181-188 | on every panel, the wizard's submit action and the handler agree: the step resets exactly when the handler runs through |
| Portal.GateStricterThanBrowser | app.js:27-37 | a form the Event Details gate accepts passes the browser's required check; a value of spaces passes the browser and not the gate |
| Portal.BlankFundingBlocksSubmit | app.js:155-164 | a shown funding section with an empty input stops the submit |
| Portal.DeleteEvent | app.js:216-221 | delete fails exactly on an unparsable payload; otherwise the stored list is the spliced list and the wizard is untouched |
| Portal.ResubmitDuplicates | app.js:181-183 | submitting the same form twice stores it twice |
| Portal.SubmitThenDeleteRestores | app.js:176-221 | a submit followed by deleting the new last record restores the stored list, with the wizard on the first panel |

## Findings

| source | as written | input that shows it | evidently intended | confidence | as-written member | corrected member |
|---|---|---|---|---|---|---|
| app.js:225 | the saved-record label replaces each capital with a space (`" "` where the preview uses `" $1"`), dropping the letter | key `startDate` gives `START ATE`; `endDate` and `endGate` both give `END ATE` | the same humanized label as the preview, `START DATE` | high, not executed | Labels.SavedLabelLosesLetters | Export.SavedReportMatchesPreview |
| app.js:87-92 | an empty file input is a `File` with an empty name, so it fails the file branch and takes the truthiness branch, which shows the object itself | a file input with no file chosen is shown as `[object File]` | `-`, as for every other empty value and as the saved report shows it | high, not executed | Export.EmptyFileShownAsObject | Export.PreviewMatchesSavedValue |

The two downloads, `Export.PreviewPdf` and `Export.SavedPdf`, model the code as written.
The corrected rows sit beside them:
- `Export.SavedRowsCorrected` labels with `Labels.PreviewLabel`, which no two space-free keys share (`Labels.PreviewLabelInjective`).
- `Export.PreviewRowsCorrected` uses `Export.PreviewCell`.
`Export.SavedReportMatchesPreviewAsWritten` states when the two downloads agree as written. `Export.SavedReportMatchesPreview` states when they agree once corrected: for a form with distinct keys, exactly when no value is a chosen file. Two differences remain after the correction, both by design of the page:
- A chosen file reads `Download ` and its name in the preview, and the name alone in the report.
- A form whose keys repeat, such as a cloned funding row, has one preview row per entry but one report row per distinct key, because the stored record keeps the last value of each key.

## Left out

- DOM work is left out: element lookup, style and class changes, event-listener wiring, `alert`, `focus` and `reportValidity`. The gate returns the index of the offending control instead of focusing it.
- Drawing is left out: jsPDF calls, fonts, the title text and the footer date. A value longer than its cell wraps under `maxWidth` and can run past its box; the placement model does not track that.
- The progress bar's floating-point percentage is left out. The model keeps the integer pair `(step + 1, panel count)`.
- `localStorage` and JSON encoding are left out. A written list is assumed to read back unchanged, so the slot holds the parsed list.
- Keys that look like array indices are left out. A JavaScript object lists them first; this model keeps first-appearance order.
- The failed load at page start is left out. `renderSavedEvents` runs during start-up, and on an unparsable payload it throws before the funding toggle and the submit handler are installed.
- Markup is left out: the saved-events list (app.js:192-214), the HTML text of the preview table with its lack of escaping, and `URL.createObjectURL`. A preview cell is a value or a link. `innerText` whitespace handling is not modelled.
- Cloning the funding section (app.js:169-173) copies DOM structure; there is no state rule behind it. Snapshot keys may still repeat, and `Records.NormalizeLastWins` covers that.
- `form.reset()` (app.js:186) is left out. It restores the controls' default values without running the mode and funding handlers.
- Wizard.Prev: stated only for steps past the first. The previous button is hidden on the first panel, and the source would otherwise decrement below zero.
- Wizard.Next: stated only for steps before the last. The next button is hidden on the last panel.
- Wizard.Jump: stated only for targets that name a panel. `data-step` comes from the markup, which this model does not include.
- Text.ToUpper: upper-cases ASCII letters only. `toUpperCase` also maps other scripts, which can change a string's length.
- Portal.Submit: the browser's form validation is modelled as the `required` check only (`valueMissing` on an empty value). Type, pattern and length constraints come from the markup, which this model does not include. So do required radio groups and the message the browser shows.
