# Skan: scan store, folders, classifier output and session

Skan is an iPhone app. It photographs a skin lesion, classifies the photo as
"Benign" or "Malignant" with an on-device model, and saves the scan in a
named folder. This project models the logic inside the app's screens. It is
written in Dafny and proves properties of the model.

- **Scan records and the store** (`DataItem`, `ScanStore`).
  - A `File` record holds an identifier, a diagnosis, image bytes, a date and a folder name.
  - `Store` holds the record table, the shared pending folder (`AppInformation.folder`) and the stored `userId`.
  - Its methods are insert, save, delete one record, delete a folder, rename a folder, log out, delete the account and complete a sign-in.
  - Each method states its new state through value functions on `seq<Scan>`.
- **Folders** (`Grouping`, `FolderOps`).
  - Folders are not stored. They are the distinct values of the records' `folder` field.
  - `Grouped` is `Dictionary(grouping:by:)`, and `FolderNames` is its sorted keys.
  - The delete and rename operations are stated on values, with the partition, merge and "nothing else changes" lemmas.
- **Classifier output** (`Classifier`, `ImagePicker`).
  - The parser works on the model's result description, modelled as written:
    1. take the text between the last `[` and the first `]`;
    2. split it on `,`, dropping empty pieces;
    3. pick the first piece that is greatest under string comparison;
    4. map its index to `["Benign", "Malignant"]`.
  - `ScanSession.FinishPicking` is the picker's completion callback. It writes the picked image, the prediction and `imageWasClassified`.
- **Age label** (`RelativeDate`).
  - `getDate` picks the first positive of years, months and days and writes "N unit ago", or "Today" when none is positive.
  - A reader shows that the label determines the count, the unit and the plural choice.
- **Session** (`Session`, `ScanStore`). An empty `userId` shows the sign-in screen. A successful Apple ID sign-in stores the user id. Log-out and account deletion clear it.

## Model

| member | source | states |
|---|---|---|
| DataItem.File.constructor | DataItem.swift:25-31 | The new record holds exactly the given identifier, diagnosis, date and folder, with no check on them, and its optional image is present and equal to the given bytes |
| DataItem.Values | DataItem.swift:16-31 | The value view of a record list has one value per record, in order, each equal to that record's fields |
| DataItem.AppendFreshKeepsUnique | DataItem.swift:26 | Appending a record whose identifier is not in use keeps all identifiers distinct |
| Grouping.InFolder | FoldersView.swift:31-33 | A folder's group holds exactly the records whose folder is that name |
| Grouping.InFolderCounts | FoldersView.swift:31-33 | A folder's group holds each record of that folder as often as the store does, and no record of another folder |
| Grouping.InFolderAppend | ImageView.swift:141-144 | Appending a record extends its own folder's group by that record and leaves every other group as it was |
| Grouping.Grouped | FoldersView.swift:31-33 | The grouping has exactly the folders in use as keys, and each key maps to that folder's group |
| Grouping.GroupedStep | FoldersView.swift:31-33 | Adding one record to the grouping appends it to its folder's group, creating the group if needed, and matches the grouping of the longer list |
| Grouping.FoldersAppend | ImageView.swift:141-144 | The folders in use after an append are the old ones plus the new record's folder |
| Grouping.EmptyGroup | FoldersView.swift:120 | A folder name not in use has an empty group (the `?? []` fallback) |
| Grouping.SaveJoinsGroup | ImageView.swift:141-144 | After saving a record, its folder is a group holding the old group (or nothing) followed by the record, and every other group and key is unchanged |
| Grouping.GroupedPartitions | FoldersView.swift:31-33 | Every record lands in the group keyed by its own folder, exactly as many times as it occurs; groups hold only records of their own folder; no group is empty |
| Grouping.GroupKeepsOrder | FoldersView.swift:32 | Each group is a subsequence of the store, so records keep their relative order |
| Grouping.FolderNames | FoldersView.swift:73 | The folder sections are strictly ascending and are exactly the grouping's keys, so each name appears once |
| Grouping.FolderNamesDetermined | ImageView.swift:74 | Any strictly ascending list of exactly the folders in use is the section list |
| Strings.LessIrreflexive | FoldersView.swift:73 | No name sorts before itself |
| Strings.LessTransitive | FoldersView.swift:73 | String order is transitive |
| Strings.LessTotal | FoldersView.swift:73 | Of two distinct names exactly one sorts first |
| Strings.Insert | FoldersView.swift:73 | Inserting a name into a sorted list of distinct names keeps it sorted and adds exactly that name |
| Strings.AscendingUnique | FoldersView.swift:73 | Two strictly ascending lists with the same members are equal |
| Strings.Less | FoldersView.swift:73 | Swift's `<` on strings, as used by `sorted()` and by `max(by:)`; its order is stated by the next row |
| Strings.LessIsLexicographic | FoldersView.swift:73 | A proper prefix sorts first, a string never sorts before its own prefix, and otherwise the first differing character decides |
| Strings.FirstIndexOf | ImagePicker.swift:84 | `firstIndex(of:)`: the index found holds the character and none occurs before it; no index means the character does not occur |
| Strings.LastIndexOf | ImagePicker.swift:83 | `lastIndex(of:)`: the index found holds the character and none occurs after it; no index means the character does not occur |
| Strings.FirstIndexAt | ImagePicker.swift:84 | A position holding the character with no earlier occurrence is what `firstIndex(of:)` returns |
| Strings.LastIndexAt | ImagePicker.swift:83 | A position holding the character with no later occurrence is what `lastIndex(of:)` returns |
| FolderOps.OutsideFolder | FoldersView.swift:208-212 | Deleting a folder keeps exactly the records of other folders |
| FolderOps.OutsideFolderGroup | FoldersView.swift:208-212 | After deleting a folder its group is empty and every other group is unchanged |
| FolderOps.DeleteFolderGroups | FoldersView.swift:208-212 | The grouping after deleting a folder is the old grouping without that key |
| FolderOps.FoldersOutside | FoldersView.swift:208-212 | The folders in use after deleting a folder are the old ones minus that name |
| FolderOps.DeleteUnknownFolder | FoldersView.swift:120 | Deleting a folder name not in use removes nothing |
| FolderOps.KeepAllOutside | FoldersView.swift:208-212 | If no record is in the folder, deleting it keeps the store as it was |
| FolderOps.Moved | FoldersView.swift:222 | Moving a record changes its folder to the new name and keeps its identifier, diagnosis, image and date |
| FolderOps.Renamed | FoldersView.swift:217-223 | A rename keeps the record count and moves exactly the records whose folder was the old name |
| FolderOps.RenameKeepsRecords | FoldersView.swift:217-223 | A rename keeps the count, the order, the identifiers and their distinctness, and changes only the folder of the records in the old folder |
| FolderOps.RenameToSame | FoldersView.swift:217-223 | Renaming a folder to its own name changes nothing |
| FolderOps.RenamedOtherGroup | FoldersView.swift:217-223 | A rename leaves every group other than the old and new names unchanged |
| FolderOps.RenamedTargetGroup | FoldersView.swift:217-223 | After a rename the new name's group is the records of either folder, in store order, all moved to the new name |
| FolderOps.RenameMergesGroups | FoldersView.swift:217-223 | Renaming to a different name removes the old key; the new key exists exactly when either folder existed and holds the merged records; all other groups and keys are unchanged |
| FolderOps.RenameMergeContents | FoldersView.swift:217-223 | After renaming, the new group's size is the sum of the two old groups' sizes; it holds exactly the old target group's records plus the old source group's records moved |
| FolderOps.InEitherSize | FoldersView.swift:217-223 | For two different folders, the records in either one number the sum of the two groups |
| FolderOps.RenamedFolders | FoldersView.swift:217-223 | After a rename the old name is no longer in use, the new one is exactly when either was, and other names are unaffected |
| FolderOps.WithoutId | FoldersView.swift:370-373 | Deleting a record keeps exactly the records with other identifiers |
| FolderOps.WithoutIdKeepsUnique | FoldersView.swift:370-373 | Deleting a record keeps the identifiers distinct |
| FolderOps.DeleteOneRecord | FoldersView.swift:370-373 | With distinct identifiers, deleting a record removes exactly that one position and keeps the others in order |
| FolderOps.KeepAllOtherIds | FoldersView.swift:370-373 | Deleting an identifier not in use removes nothing |
| FolderOps.InsertThenDelete | ImageView.swift:143-144 | Deleting a just-saved record with a fresh identifier restores the previous store |
| FolderOps.WithoutIdAppend | FoldersView.swift:370-373 | Deleting an identifier drops a record carrying it from the end of the store |
| RelativeDate.DigitChar | FoldersView.swift:191 | A digit below ten renders as the character for that digit |
| RelativeDate.Decimal | FoldersView.swift:191 | A count renders as a non-empty string of decimal digits with no leading zero |
| RelativeDate.DecimalRoundTrip | FoldersView.swift:191 | Reading a rendered count back gives the count |
| RelativeDate.CanonicalRoundTrip | FoldersView.swift:191 | Digits with no leading zero are the rendering of the number they denote, so the rendering is the only one |
| RelativeDate.UnitName | FoldersView.swift:191-197 | The word written for a unit and number is the word the reader takes for that unit and number |
| RelativeDate.DigitsHaveNoSpace | FoldersView.swift:191 | A rendered count holds no space, so the first space of a label ends the count |
| RelativeDate.SplitAtFirstSpace | FoldersView.swift:191 | The first space of "head tail" follows a space-free head, and the parts around it are head and tail |
| RelativeDate.ReadWords | FoldersView.swift:191-197 | "N unit ago" reads back as the count N and that unit |
| RelativeDate.ReadAgo | FoldersView.swift:191-197 | A positive count's label reads back as the count, the unit and a plural flag that is set exactly when the count is not 1 |
| RelativeDate.ReadLabelOnlyRenderings | FoldersView.swift:191-197 | Any text that reads as a count, a unit and a plural flag is exactly the decimal count, the unit's word and "ago", separated by single spaces |
| RelativeDate.ZeroPaddedRejected | FoldersView.swift:191 | The zero-padded "01 year ago" is not a rendering and reads as nothing |
| RelativeDate.AgeLabel | FoldersView.swift:181-203 | `getDate` on the calendar components (each possibly missing) and the formatter's text; what it writes is stated by the lemmas of the next rows |
| RelativeDate.AgeLabelReadsBack | FoldersView.swift:186-200 | With all components present, the label reads back as the first positive of years, months and days, with the singular word exactly for 1; with none positive it reads as no count |
| RelativeDate.AgeLabelText | FoldersView.swift:186-197 | With all components present and one positive, the label is exactly the first positive count in decimal, its unit's word (singular exactly for 1) and "ago" |
| RelativeDate.TodayExactlyWhenNothingPositive | FoldersView.swift:190-200 | With all components present the label is "Today" exactly when years, months and days are all at most 0 |
| Classifier.ScoreText | ImagePicker.swift:83-85 | The score text is a non-empty slice holding no bracket |
| Classifier.ScoreTextOf | ImagePicker.swift:83-85 | For a description with no `]` before its last `[` and no `[` after its first `]`, the score text is exactly the text between them |
| Classifier.WellBracketed | ImagePicker.swift:83-85 | The slicing does not trap: both brackets are found and at least one character lies between the last `[` and the first `]` |
| Classifier.WellBracketedExactly | ImagePicker.swift:83-85 | The slicing does not trap exactly when both brackets occur and every `[` lies at least two positions before every `]` |
| Classifier.Split | ImagePicker.swift:85 | The pieces of a split are non-empty and hold no comma |
| Classifier.SplitJoin | ImagePicker.swift:85 | Splitting comma-joined non-empty comma-free pieces gives back the pieces |
| Classifier.ConcatAppend | ImagePicker.swift:85 | Concatenating the pieces of two lists is concatenating the two results |
| Classifier.SplitKeepsText | ImagePicker.swift:85 | Splitting drops only the commas: the pieces together are the text without its commas |
| Classifier.SplitAtComma | ImagePicker.swift:85 | The pieces of "a,b" are the pieces of a followed by the pieces of b |
| Classifier.SplitCommaFree | ImagePicker.swift:85 | Text without a comma is one piece, or no piece when it is empty; with `SplitAtComma` this fixes the pieces of every text |
| Classifier.LeadingCommaDropped | ImagePicker.swift:85 | A leading comma adds no (empty) piece |
| Classifier.DoubledCommaDropped | ImagePicker.swift:85 | Two adjacent commas add no (empty) piece between them |
| Classifier.PredictedIndex | ImagePicker.swift:87 | The predicted index is 0 for no pieces, and otherwise the first index whose piece no other piece exceeds in string order, with earlier pieces strictly below it |
| Classifier.GreatestFrom | ImagePicker.swift:87 | Scanning on from a first-greatest prefix gives the first greatest of the whole list |
| Classifier.GreaterTakesOver | ImagePicker.swift:87 | A piece strictly greater than the best so far becomes the new first greatest |
| Classifier.EqualOrSmallerKeeps | ImagePicker.swift:87 | A piece equal to or below the best so far leaves the earlier index, so ties keep the first |
| Classifier.ResultIndex | ImagePicker.swift:79-87 | A missing description gives index 0; otherwise no pieces give 0, and any pieces give the first greatest one's index |
| Classifier.Prediction | ImagePicker.swift:90 | The prediction is "Benign" or "Malignant", and "Malignant" exactly when the predicted index is 1 |
| Classifier.AtMostTwoPiecesClassify | ImagePicker.swift:87-90 | A score text with at most two pieces always yields a label in range |
| Classifier.NoPiecesIsBenign | ImagePicker.swift:87-90 | A score text made only of commas has no pieces and yields "Benign" |
| Classifier.ConcatLength | ImagePicker.swift:85 | Non-empty pieces together are at least as long as their number |
| Classifier.CommasOnly | ImagePicker.swift:85 | Text made only of commas has nothing left without them |
| Classifier.StringComparisonExample | ImagePicker.swift:87 | "[0.1, 0.9]" yields "Benign": the piece " 0.9" starts with a space and sorts below "0.1" |
| Classifier.SplitExample | ImagePicker.swift:85 | "0.1, 0.9" splits into "0.1" and " 0.9", keeping the leading space |
| ImagePicker.ScanSession.constructor | ScanView.swift:26-28 | The scan screen starts with no image, the prediction "None" and the result screen closed |
| ImagePicker.ScanSession.FinishPicking | ImagePicker.swift:61-114 | No picked image: nothing changes and the picker closes. Otherwise the image is stored first. A model that does not load, or an image that does not convert, sets the matching error text and stops. A failed request changes nothing more. A malformed result or an out-of-range index stops. Otherwise the label is stored and `imageWasClassified` is set |
| ImagePicker.ClassificationGatesResult | ImagePicker.swift:63-100 | The result screen opens exactly when an image was picked, the model loaded, the image converted and a classifiable result came back; it then shows "Benign" or "Malignant" |
| Session.ScreenFor | ContentView.swift:25-29 | The sign-in screen shows exactly when the user id is empty, the home screen exactly when it is not |
| Session.AfterSignIn | ContentView.swift:67-83 | An Apple ID success stores that credential's user; any other credential or a failure keeps the user id |
| ScanStore.LoggedOut | AccountView.swift:135-137 | Logging out keeps every record and the pending folder and leads to the sign-in screen |
| ScanStore.AccountDeleted | AccountView.swift:141-150 | Deleting the account leads to the sign-in screen and removes every record, or keeps them all when the bulk delete fails |
| ScanStore.LogOutIdempotent | AccountView.swift:136 | Logging out twice is logging out once |
| ScanStore.DeleteAccountIdempotent | AccountView.swift:142-149 | Deleting the account twice is deleting it once with a failure only if both deletes fail |
| ScanStore.ExceptUnion | FoldersView.swift:209-211 | Removing one set of records and then another is removing their union |
| ScanStore.ValuesAppend | ImageView.swift:144 | The values of two joined record lists are the joined values |
| ScanStore.Members | FoldersView.swift:120 | The folder's record list holds only records of that folder, and every such record |
| ScanStore.MembersAreGroup | FoldersView.swift:120 | The values of the folder's record list are the folder's group |
| ScanStore.DeleteMembers | FoldersView.swift:208-212 | Removing the folder's records leaves exactly the records of other folders |
| ScanStore.AppendValues | ImageView.swift:144 | Inserting a record with a fresh identifier appends its value and keeps identifiers distinct |
| ScanStore.ExceptFolder | FoldersView.swift:208-212 | Removing exactly the records of one folder leaves the records outside it |
| ScanStore.ExceptId | FoldersView.swift:370-373 | Removing exactly the records with one identifier leaves the records with other identifiers |
| ScanStore.OnlyOneWithId | FoldersView.swift:370-373 | With distinct identifiers, a stored record is the only one with its identifier |
| ScanStore.ExceptOneKeepsUnique | FoldersView.swift:371 | Deleting a record keeps identifiers distinct |
| ScanStore.ExceptOneValues | FoldersView.swift:371 | Deleting a stored record removes exactly its identifier's record; deleting one not stored changes nothing |
| ScanStore.NothingExcepted | FoldersView.swift:371 | Removing records none of which is stored changes nothing |
| ScanStore.MoveAll | FoldersView.swift:221-223 | Every record of the folder has its folder set to the new name and keeps its other fields |
| ScanStore.Store.constructor | ContentView.swift:20 | A fresh install has no records, an empty user id (the `@AppStorage` default) and no pending folder (the `AppInformation.folder` default at CI601_ProjectApp.swift:31) |
| ScanStore.Store.CurrentScreen | ContentView.swift:25-29 | The app shows the sign-in screen exactly when the stored user id is empty, and the home screen exactly when it is not |
| ScanStore.Store.Options | ImageView.swift:70-122 | Save goes directly to the pending folder exactly when one is set; otherwise the menu lists exactly the folders in use, sorted and each once |
| ScanStore.Store.AddToFolder | FoldersView.swift:104 | Add sets the pending folder and changes nothing else |
| ScanStore.Store.Insert | ImageView.swift:144 | `context.insert` appends the record, keeps identifiers distinct and changes nothing else |
| ScanStore.Store.SaveScan | ImageView.swift:141-149 | Saving appends exactly one new record with the given identifier, diagnosis, image, date and folder, keeps the existing records, and clears the pending folder |
| ScanStore.Store.Save | ImageView.swift:70-124 | Without JPEG data nothing changes, including the pending folder. Otherwise the scan is appended under the pending folder, the picked existing folder or the typed new name (unchecked), and the pending folder is cleared |
| ScanStore.Store.Delete | FoldersView.swift:371 | `context.delete` removes that record object and changes nothing else |
| ScanStore.Store.DeleteFile | FoldersView.swift:370-373 | Deleting a stored record removes exactly the record with its identifier; deleting one not stored changes nothing |
| ScanStore.Store.DeleteGroup | FoldersView.swift:208-212 | Deleting a list of records one by one removes exactly those records |
| ScanStore.Store.DeleteFolder | FoldersView.swift:208-212 | Deleting a folder keeps exactly the records of other folders, in order, and changes nothing else |
| ScanStore.Store.RenameFolder | FoldersView.swift:217-230 | Renaming moves exactly the records of the old folder to the new name, and changes nothing else |
| ScanStore.Store.LogOut | AccountView.swift:135-137 | Logging out clears the user id and keeps every record and the pending folder |
| ScanStore.Store.DeleteAccount | AccountView.swift:141-150 | Deleting the account clears the user id and removes every record, unless the bulk delete fails, which is only logged |
| ScanStore.Store.CompleteSignIn | ContentView.swift:67-83 | The sign-in handler sets the user id as `AfterSignIn` says and changes nothing else |

## Left out

- Layout, styling, alerts, sheets, tab navigation and the info and help screens are presentation only.
- Core ML and Vision are platform calls. Loading the model, converting the image and running the request are parameters of `FinishPicking`. The request's result description is an optional string.
- The vision request's completion handler runs inside `perform`. The model runs it synchronously, before `perform` returns, and does not model any other timing.
- `fatalError`, force unwraps and `labels[i]` out of range stop the app. `FinishPicking` ends with `Trapped` in those cases. The pure parser functions require the inputs that avoid them.
- JPEG encoding is a platform call. Its outcome is an optional byte sequence passed to `Save`.
- PDF export of a scan is rendering and file I/O.
- `Calendar.dateComponents` and `DateFormatter` are platform calls. The year, month and day components are optional integers, and the formatter's text is an input.
- UUID generation is a platform call. The identifier is a parameter that the save operations require to be unused.
- SwiftData and `UserDefaults` persistence are platform storage. The store is an in-memory sequence, and a failed `context.save()` is only logged, so the in-memory state stays as it is.
- Sign in with Apple is an external service. Its result is a parameter of `CompleteSignIn`.
- `dismiss()`, the presentation mode and `print` are UI and logging only.
- Characters: the model indexes strings by Dafny `char`. Swift's `firstIndex(of:)`, `lastIndex(of:)`, `index(after:)`, `index(before:)` and `split` work on grapheme clusters, so a `[` followed by a combining mark is one Character that is not `[` to Swift but is a `[` to the model. The parser model assumes descriptions in which every bracket and comma is its own Character.
- Fetch order: `@Query private var items` has no sort descriptor (FoldersView.swift:22, ImageView.swift:25), so the platform does not fix the order of the fetched records. The model takes it to be insertion order; the order claims (`GroupKeepsOrder`, `SaveJoinsGroup` putting a saved record at the end of its group, `DeleteOneRecord`) hold under that assumption.
- Strings.Less: Swift compares `String` values by Unicode canonical ordering. The model compares character sequences lexicographically, without normalisation.
- ScanStore.Store.Save: requires a destination the save screen actually offers (the pending folder when one is set, otherwise an existing folder or a new name), because the screen shows no other button.
