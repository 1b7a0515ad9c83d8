# Movie and actor catalogue: the PATCH protocol and its neighbours

A Dafny model of the core of a small casting-agency service. The backend is a
Flask service over movies, actors and the casts that link them. The frontend
is a React single-page app whose edit pages send JSON Patch lists. The model
covers:

- **Field codec** (`FieldCodec`): `_camel_to_snake`, `_snake_to_camel` and the
  recursive key renamer `_camel_case_dict`. The renamer is written as a method
  with its loop, proved against a recursive function.
- **Patch parser** (`PatchParser`): `_convert_json_patch_request_to_dict`.
  - It turns a list of `{op, path, value}` objects into a column→value
    dictionary.
  - It accepts `add` and `remove` only, in list order, stopping at the first
    bad element.
  - The last write wins.
- **Field rules and mutators** (`FieldRules`, `Movies`, `Actors`): the field
  loop of `update_movie` and `update_actor`. Each column has its own rule
  (required text, required or optional enum, required int, optional URL,
  optional `%Y-%m-%d` date). The "falsy but not None" check refuses a
  disguised clear.
- **ETag gate** (`PatchGate`): the check order 415 → 400 → 404; the tag
  before and after the edit; 204 with the old tag and no write when nothing
  changed; one write and 200 with the new tag otherwise.
- **Search and pagination** (`Listing`): a case-insensitive substring filter,
  ordered by the display field, in pages of ten.
- **Creation handlers** (`Movies.PostMovie`, `Actors.PostActor`) and the
  **cast pair store** (`Casts.CastStore`).
- **Edit pages** (`PatchBuilder`, `EditMovie`, `EditActor`): the patch list
  that `onSubmit` builds. This list is the input the backend consumes, so the
  two are connected end to end. The model proves what a form submission does
  to the stored row.

Storage is modelled in two ways:

- The database table is a class `Store.Table` holding `rows: map<int, R>`.
  The handlers that change it are methods with `modifies` clauses, each proved
  equal to a pure specification function (`PatchMovie`, `PatchActor`,
  `PostCastResult`, ...). The lemmas are stated about those functions.
- The ORM object that `update_movie` mutates field by field is a local value
  that the field loop reassigns.

`_create_etag` (SHA-256 of `json.dumps(format(), sort_keys=True)`) is a
parameter `hash: Value -> string`. Lemmas that need "a changed row gives a
different tag" assume that no two rows under the same id share a tag:
`hash(format(id, a)) == hash(format(id, b))` only when `a == b`. SHA-256
gives this unless two formatted rows collide.

Where the code and its design description disagree, the model follows the
code:

- **`remove` and `add null`.** A `remove` is stored as Python `None`, exactly
  like an `add` whose value is `null`; there is no separate clear marker. So
  `add null` clears an optional field, and is refused on a required one just
  as `remove` is.
- **An empty gender.** An empty-string gender (any falsy value) clears the
  actor's gender (`actors_controller.py:126`) instead of being refused as a
  disguised clear. The URL and date columns do refuse `""`.
- **Genre is stripped, gender is not.** A genre name is stripped before the
  lookup (`movies_controller.py:139`); a gender name is not.
- **Page numbers below 1.** They are not clamped (`movies_controller.py:21`).
  The model requires page ≥ 1.

Python and JSON values are modelled by `Values.Value`, with dictionaries as
insertion-ordered entry lists. JSON booleans are kept distinct from integers.

## Model

| member | source | states |
|---|---|---|
| Text.StripBy | backend/movies/movies_controller.py:134 | `str.strip()` (and JavaScript `trim()`): the result neither starts nor ends with whitespace, and it is empty exactly when every character of the input is whitespace |
| Text.StripBySlice | backend/movies/movies_controller.py:134 | the result is a slice `s[i..j]` of the input with only whitespace before `i` and from `j` on, so together with `StripBy`'s contract it is the input minus its surrounding whitespace |
| Text.StripIdempotent | backend/movies/movies_controller.py:134 | stripping a stripped string changes nothing, so a stored stripped title re-sent by a PATCH is read back unchanged |
| Text.LowerAscii | backend/movies/movies_controller.py:23-25 | the case folding of `ilike`: no ASCII capital is left, and a text without one comes back unchanged |
| Text.Contains | backend/movies/movies_controller.py:20-25 | `%term%` matching: true exactly when the term occurs at some offset |
| Text.LexTotal | backend/movies/movies_controller.py:26 | `order_by` compares any two fields one way or the other |
| Text.LexTransitive | backend/movies/movies_controller.py:26 | the `order_by` comparison is transitive |
| Decimal.DigitsRoundTrip | backend/casts/casts_controller.py:28 | the decimal text an f-string gives a non-negative id reads back as that id |
| Decimal.ReadIntText | backend/casts/casts_controller.py:28 | reading the f-string text of any integer, negative ones included, gives back the integer and leaves the text after it |
| Dates.ParseDate | backend/movies/movies_controller.py:147-156 | `datetime.strptime(s, "%Y-%m-%d")`: every date it accepts is a real calendar date, with a four-digit year, month 1-12 and a day within that month |
| Dates.ParseIsoFormat | backend/movies/movies_controller.py:147-156 | the `YYYY-MM-DD` form of every valid date parses back to that date |
| Dates.ThreeDigitMonthRejected | backend/movies/movies_controller.py:149-151 | a three-digit month such as `2024-013-01` is refused |
| Dates.ShortFormsAccepted | backend/movies/movies_controller.py:149-151 | one-digit months and space-padded days are accepted |
| Dates.LeapDayRefused | backend/movies/movies_controller.py:149-151 | 29 February is refused in 2023, which is not a leap year |
| Dates.LeapDayAccepted | backend/movies/movies_controller.py:149-151 | 29 February is accepted in the leap year 2024 |
| Values.FalsyValues | backend/utilities/utilities.py:63-64 | `_abort_if_falsy_and_not_none` holds exactly for False, 0, 0.0, "", [] and {}; a value is falsy exactly when it is None or one of those |
| Values.Get | backend/utilities/utilities.py:47-49 | a dictionary lookup finds nothing exactly when the key is absent, and otherwise finds an entry stored under that key |
| Values.GetFirst | backend/utilities/utilities.py:47-49 | the entry a lookup finds is the first one under its key: no earlier entry has that key |
| Values.PutGet | backend/utilities/utilities.py:47-49 | `new_dict[k] = v`: reading `k` gives `v`, and every other key reads as before |
| Values.PutKeys | backend/utilities/utilities.py:47-49 | assigning to an existing key keeps the key order; assigning to a new key appends it |
| Values.PutDistinct | backend/utilities/utilities.py:47-49 | a dictionary keeps its keys distinct under assignment |
| Models.GenderByName | backend/models.py:32-34 | `Gender[x]` finds the member named `x` when there is one and fails when no member has that name |
| Models.GenderNameIsNeverValue | backend/models.py:32-34 | no string is both a member name (MALE/FEMALE) and a member value (M/F) |
| Models.GenreByName | backend/models.py:71-81 | `Genre[x]` finds the member named `x` when there is one and fails when no member has that name |
| Models.GenreTable | backend/models.py:71-81 | exactly ten distinct genres, each member's value equal to its name, and each found by its own name |
| Models.GenreValueIsName | backend/models.py:71-81 | a string is a genre value exactly when it is a genre name |
| Models.NewMovie | backend/models.py:93-100 | the constructor raises exactly when the title is empty, and otherwise stores the four fields unchanged |
| Models.FormatActor | backend/models.py:55-62 | an actor formats to exactly the keys age, gender, id, name and photo_url |
| Models.FormatMovie | backend/models.py:105-112 | a movie formats to exactly the keys genre, id, poster_url, release_date and title |
| Models.FormatKeysAreColumns | backend/models.py:36-112 | the formatted keys are exactly the table columns of each entity |
| Models.FormatActorInjective | backend/models.py:55-62 | two actor rows with equal `format()` have equal ids and equal fields |
| Models.FormatMovieInjective | backend/models.py:105-112 | two movie rows with equal `format()` have equal ids and equal fields |
| FieldCodec.CamelToSnake | backend/utilities/utilities.py:8-11 | the result contains no ASCII capital letter |
| FieldCodec.SnakeToCamel | backend/utilities/utilities.py:14-18 | with upper-casing limited to ASCII, the result is never longer than the input |
| FieldCodec.SnakeRoundTrip | backend/utilities/utilities.py:8-18 | for lower-case words joined by single underscores, converting to camel case and back gives the name again |
| FieldCodec.CamelRoundTrip | backend/utilities/utilities.py:8-18 | for a lower-case word followed by capitalised humps, converting to snake case and back gives the name again |
| FieldCodec.SnakeToCamelPlain | backend/utilities/utilities.py:14-18 | text before the first underscore passes through unchanged |
| FieldCodec.PhotoUrlColumn | backend/utilities/utilities.py:8-11 | `photoUrl` names the column `photo_url` |
| FieldCodec.PosterUrlColumn | backend/utilities/utilities.py:8-11 | `posterUrl` names the column `poster_url` |
| FieldCodec.ReleaseDateColumn | backend/utilities/utilities.py:8-11 | `releaseDate` names the column `release_date` |
| FieldCodec.PhotoUrlName | backend/utilities/utilities.py:14-18 | the column `photo_url` is sent as `photoUrl` |
| FieldCodec.PosterUrlName | backend/utilities/utilities.py:14-18 | the column `poster_url` is sent as `posterUrl` |
| FieldCodec.ReleaseDateName | backend/utilities/utilities.py:14-18 | the column `release_date` is sent as `releaseDate` |
| FieldCodec.LoneUnderscoreKept | backend/utilities/utilities.py:14-18 | a trailing `_`, and a `_` before a newline, are kept; `__b` becomes `_b` |
| FieldCodec.CamelCasedDict | backend/utilities/utilities.py:21-31 | `_camel_case_dict` of a dict fails exactly when one of its values fails; otherwise the result's keys are the camel-cased keys, each once, in first-write order, and each reads the converted value of the last entry renamed to it |
| FieldCodec.RenameEntriesReads | backend/utilities/utilities.py:22-31 | the loop over the keys, from any partial `new_item`: the same, with keys no entry is renamed to reading as before |
| FieldCodec.LastUnder | backend/utilities/utilities.py:26-30 | the entry a later write to the same camel-cased key leaves in place: absent exactly when no key renames to it, else the value of an entry that renames to it with no later entry renaming to it |
| FieldCodec.RenameValue | backend/utilities/utilities.py:24-30 | a value that is neither a list nor a dictionary is kept as it is |
| FieldCodec.RenameItemsEach | backend/utilities/utilities.py:25 | a list value fails exactly when one of its elements fails, and otherwise its i-th new element is `_camel_case_dict` of its i-th element |
| FieldCodec.CamelCaseDict | backend/utilities/utilities.py:21-31 | the loop over the keys computes exactly `CamelCased`, which `CamelCasedDict` characterises |
| FieldCodec.CamelCaseList | backend/utilities/utilities.py:25 | the list comprehension computes `RenameItems`, which `RenameItemsEach` characterises element by element |
| PatchParser.DropFirst | backend/utilities/utilities.py:45 | `path[1:]` drops the first character, whatever it is |
| PatchParser.CheckOp | backend/utilities/utilities.py:36-46 | an element that passes the checks names one of the model's columns |
| PatchParser.CheckOpWrites | backend/utilities/utilities.py:39-49 | an element that passes is an `add` or a `remove` with a string path, and writes the column `_camel_to_snake(path[1:])`, with the `add`'s value or `None` for a `remove` |
| PatchParser.ConvertPatchRequest | backend/utilities/utilities.py:34-51 | the loop computes the specification `ConvertPatch` |
| PatchParser.ConvertOk | backend/utilities/utilities.py:36-51 | the conversion succeeds exactly when every element passes its checks; its keys are then distinct columns |
| PatchParser.FirstErrorStops | backend/utilities/utilities.py:36-46 | the conversion fails with the error of the first bad element, whatever follows it |
| PatchParser.LastWriteWins | backend/utilities/utilities.py:47-49 | a column reads the value of the last element that names it |
| PatchParser.UntouchedAbsent | backend/utilities/utilities.py:47-49 | a column that no element names is absent from the result |
| PatchParser.OtherOpsRefused | backend/utilities/utilities.py:39-44 | any operation other than add and remove (replace, move, copy and test among them) is refused with ValueError, with or without a value |
| PatchParser.RemoveWithValueRefused | backend/utilities/utilities.py:42-44 | a remove that carries a value is refused with ValueError |
| PatchParser.AddAccepted | backend/utilities/utilities.py:45-49 | an add on a known path writes its value to the column the path names |
| PatchParser.RemoveAccepted | backend/utilities/utilities.py:45-49 | a remove on a known path writes None to the column the path names |
| PatchParser.IdPathAccepted | backend/utilities/utilities.py:45 | `/id` is an accepted path, and so is `xid`, since the first character is dropped unchecked |
| PatchParser.MissingKeysRaiseKeyError | backend/utilities/utilities.py:40-48 | a missing `op` or `path`, or an add without `value`, raises KeyError rather than ValueError |
| PatchParser.BadPathTypes | backend/utilities/utilities.py:37-46 | a path that is neither null nor a string raises TypeError |
| PatchParser.NullPathRefused | backend/utilities/utilities.py:37-46 | a null path raises ValueError |
| PatchParser.UnknownPathRefused | backend/utilities/utilities.py:45-46 | an `add` or `remove` whose path names no column raises ValueError (400) |
| PatchParser.NullOpRefused | backend/utilities/utilities.py:39-44 | a null `op` raises ValueError (400) |
| PatchParser.NonObjectRefused | backend/utilities/utilities.py:37-40 | an element that is not a JSON object raises TypeError |
| Store.Table.Add | backend/movies/movies_controller.py:83 | `add()` stores the row under a fresh id and changes no other row |
| Store.Table.Update | backend/movies/movies_controller.py:173 | `update()` replaces the row under its id and changes no other row |
| PatchGate.CheckOrder | backend/movies/movies_controller.py:107-125 | a wrong Content-Type gives 415 before the body is read; then a non-list body gives 400, a conversion TypeError or ValueError gives 400 (KeyError 500), and only then a missing row gives 404 |
| PatchGate.OnlySuccessWrites | backend/movies/movies_controller.py:129-176 | only a 200 writes, and it writes exactly the edited row under a tag that differs from the old one; a 204 carries the old tag; no other outcome changes any row |
| PatchGate.NoChangeNoWrite | backend/movies/movies_controller.py:166-171 | an edit that leaves the row as it was gives 204 with the old tag, and nothing is written |
| PatchGate.PatchIdempotent | backend/movies/movies_controller.py:166-176 | a successful PATCH sent twice answers the second time with 204 and the same tag, and writes nothing more |
| PatchGate.ChangeDetected | backend/movies/movies_controller.py:166-176 | when tags do not collide, an edit that changes the row gives 200 with a new tag and writes the edited row |
| PatchGate.TagsDiffer | backend/utilities/utilities.py:54-60 | when the tag does not collide on formatted rows, different rows get different tags |
| FieldRules.RequiredText | backend/movies/movies_controller.py:130-134 | a title or name is accepted exactly when it is a non-empty string, and it is stored stripped |
| FieldRules.GenreRule | backend/movies/movies_controller.py:135-141 | a genre is accepted exactly when it is a string whose stripped form names a genre, and that genre is stored |
| FieldRules.ReleaseDateRule | backend/movies/movies_controller.py:142-156 | null clears the date; a falsy non-null value or a non-string is refused; a non-empty string is stored exactly when its stripped form parses as a date |
| FieldRules.PosterUrlRule | backend/movies/movies_controller.py:157-164 | null clears the URL; a non-empty string is stored stripped; anything else is refused |
| FieldRules.UrlRulesAgree | backend/actors/actors_controller.py:133-140 | the actor's photo URL follows the same rule as the movie's poster URL |
| FieldRules.GenderRule | backend/actors/actors_controller.py:124-128 | every falsy value clears the gender; otherwise only a string naming a member (MALE/FEMALE) is accepted, and that member is stored |
| FieldRules.AgeRule | backend/actors/actors_controller.py:129-132 | an age is accepted exactly when it is a non-zero integer, and it is stored as given |
| FieldRules.GenreNamesAccepted | backend/movies/movies_controller.py:135-141 | every genre's own name is accepted as that genre |
| FieldRules.RemoveRequiredRefused | backend/movies/movies_controller.py:130-141 | removing a title, a genre or an age is refused |
| FieldRules.BlankTextStoredEmpty | backend/movies/movies_controller.py:130-134 | a whitespace-only title passes the check and is stored as "" |
| FieldRules.EmptyStringIsNoClear | backend/movies/movies_controller.py:142-164 | `""` is refused for the date and the URLs, and null clears each of them |
| FieldRules.IsoDateAccepted | backend/movies/movies_controller.py:142-156 | every valid date in `YYYY-MM-DD` form is stored as that date |
| FieldRules.NonLeapDayRefused | backend/movies/movies_controller.py:147-156 | `2023-02-29` is refused |
| FieldRules.BlankDateRefused | backend/movies/movies_controller.py:147-156 | a blank, non-empty date string strips to "" and is refused |
| FieldRules.GenderByNameOnly | backend/actors/actors_controller.py:124-128 | a gender's name is accepted and its value (M/F) is refused; "" and null clear |
| FieldRules.AgeSignUnchecked | backend/actors/actors_controller.py:129-132 | age 0 is refused, a negative age is stored, and the string "4" is refused |
| Listing.MatchIgnoresCase | backend/movies/movies_controller.py:20-25 | lowering the field or the term does not change whether they match |
| Listing.EmptyTermMatchesAll | backend/movies/movies_controller.py:19-20 | the default empty search matches every row |
| Listing.Matching | backend/movies/movies_controller.py:23 | the matches are stored rows |
| Listing.Ordered | backend/movies/movies_controller.py:26 | `order_by` lists each matching row exactly once, in non-decreasing order of the field |
| Listing.Start | backend/movies/movies_controller.py:21 | the offset is a multiple of the page size |
| Listing.Slice | backend/movies/movies_controller.py:27 | `.slice(start, end)` keeps the rows from `start` up to `end` or the end of the list, in order |
| Listing.PageRowsMatch | backend/movies/movies_controller.py:21-28 | a page holds at most ten rows, each a stored row matching the term |
| Listing.PageSorted | backend/movies/movies_controller.py:24-28 | a page lists distinct rows in order of their fields |
| Listing.EveryMatchOnItsPage | backend/movies/movies_controller.py:18-28 | the match at rank k in the order is on page k div 10 + 1, at position k mod 10 |
| Listing.EveryMatchListed | backend/movies/movies_controller.py:18-28 | every matching row is on some page numbered from 1 |
| Listing.PageSizes | backend/movies/movies_controller.py:21-28 | every page before the last is full, and a page past the matches is empty |
| Movies.ApplyMovieField | backend/movies/movies_controller.py:129-164 | one entry of the patch changes its own field at most |
| Movies.UpdateMovieFields | backend/movies/movies_controller.py:129-164 | the loop over the converted patch computes `ApplyMovieFields` |
| Movies.FieldLoopIsLookup | backend/movies/movies_controller.py:129-164 | with distinct keys, the loop's result equals applying the entry found for each field in turn |
| Movies.FieldOrderIrrelevant | backend/movies/movies_controller.py:129-164 | two patches that read the same under every key edit a movie alike, whatever their key order |
| Movies.FieldLoopIdempotent | backend/movies/movies_controller.py:129-164 | applying an accepted patch again leaves the edited movie unchanged |
| Movies.FailingFieldAborts | backend/movies/movies_controller.py:129-164 | one refused entry refuses the whole patch |
| Movies.UpdateMovie | backend/movies/movies_controller.py:106-176 | the handler's response and the table's new rows are those of the specification `PatchMovie`, and no id is handed out |
| Movies.MoviePatchIdempotent | backend/movies/movies_controller.py:106-176 | a successful movie PATCH sent twice answers 204 with the same tag the second time, and the second call writes nothing |
| Movies.MovieChangeDetected | backend/movies/movies_controller.py:166-176 | an accepted patch that changes the movie gives 200 with a new tag and stores the edited movie, under the assumption that no two movie rows under the id share a tag |
| Movies.MoviePatchOutcome | backend/movies/movies_controller.py:166-176 | an accepted patch stores the edited movie; the answer is 204 exactly when that movie equals the stored one, under the assumption that no two movie rows under the id share a tag; the tag is the one a following GET returns |
| Movies.GetMovies | backend/movies/movies_controller.py:16-43 | the list answers 200 with no tag |
| Movies.MoviesPage | backend/movies/movies_controller.py:16-43 | a page holds at most ten distinct matching movies in title order |
| Movies.MovieOnSomePage | backend/movies/movies_controller.py:16-43 | every movie whose title contains the search term is on some page |
| Movies.GetMovie | backend/movies/movies_controller.py:87-98 | a stored movie answers 200 with the tag of its formatted row, and any other id answers 404 |
| Movies.PatchTagMatchesGet | backend/movies/movies_controller.py:166-176 | after a 200 or 204 PATCH, a GET of the movie answers 200 with the tag the PATCH returned |
| Movies.GenreAndDateBody | backend/utilities/utilities.py:34-51 | `[add /genre COMEDY, remove /releaseDate]` converts to genre COMEDY and release_date None |
| Movies.GenreAndDatePatch | backend/movies/movies_controller.py:135-156 | that patch sets the genre to Comedy and clears the date |
| Movies.RefusedMovieFields | backend/movies/movies_controller.py:130-146 | a patch that removes the title, adds an empty title or adds an empty date is refused |
| Movies.OptionalText | backend/movies/movies_controller.py:80 | the posted poster URL is stored exactly when it is a string, and then as posted, unstripped |
| Movies.NewMovieFromBody | backend/movies/movies_controller.py:45-85 | a non-object body gives 500 and one that fails validation gives 400; a valid body with a title that is not blank and a readable date (absent, null, blank or parseable) is accepted; an accepted movie has the stripped title, the genre whose value was posted, and the posted poster URL unstripped |
| Movies.NewMovieDate | backend/movies/movies_controller.py:66-74 | an absent, null or blank date stores no date; any other date string is stored parsed |
| Movies.NewMovieBadDate | backend/movies/movies_controller.py:70-74 | a valid body whose date is not blank and does not parse gives 400 |
| Movies.NewMovieBlankTitle | backend/movies/movies_controller.py:62-81 | a valid body whose title strips to "" and whose date is readable (absent, null, blank or parseable) passes the check, and the constructor's ValueError gives 500 |
| Movies.PostMovie | backend/movies/movies_controller.py:45-85 | a refused body changes nothing; an accepted one is stored under the next id, which the 201 answer carries |
| Actors.ApplyActorField | backend/actors/actors_controller.py:118-140 | one entry of the patch changes its own field at most |
| Actors.UpdateActorFields | backend/actors/actors_controller.py:118-140 | the loop over the converted patch computes `ApplyActorFields` |
| Actors.FieldLoopIsLookup | backend/actors/actors_controller.py:118-140 | with distinct keys, the loop's result equals applying the entry found for each field in turn |
| Actors.FieldOrderIrrelevant | backend/actors/actors_controller.py:118-140 | two patches that read the same under every key edit an actor alike |
| Actors.FieldLoopIdempotent | backend/actors/actors_controller.py:118-140 | applying an accepted patch again leaves the edited actor unchanged |
| Actors.FailingFieldAborts | backend/actors/actors_controller.py:118-140 | one refused entry refuses the whole patch |
| Actors.UpdateActor | backend/actors/actors_controller.py:94-152 | the handler's response and the table's new rows are those of the specification `PatchActor` |
| Actors.ActorPatchIdempotent | backend/actors/actors_controller.py:94-152 | a successful actor PATCH sent twice answers 204 with the same tag the second time, and the second call writes nothing |
| Actors.ActorChangeDetected | backend/actors/actors_controller.py:142-152 | an accepted patch that changes the actor gives 200 with a new tag and stores the edited actor, under the assumption that no two actor rows under the id share a tag |
| Actors.ActorPatchOutcome | backend/actors/actors_controller.py:142-152 | an accepted patch stores the edited actor; the answer is 204 exactly when that actor equals the stored one, under the assumption that no two actor rows under the id share a tag; the tag is the one a following GET returns |
| Actors.GetActors | backend/actors/actors_controller.py:15-41 | the list answers 200 with no tag |
| Actors.ActorsPage | backend/actors/actors_controller.py:15-41 | a page holds at most ten distinct matching actors in name order |
| Actors.ActorOnSomePage | backend/actors/actors_controller.py:15-41 | every actor whose name contains the search term is on some page |
| Actors.GetActor | backend/actors/actors_controller.py:75-86 | a stored actor answers 200 with the tag of its formatted row, and any other id answers 404 |
| Actors.PatchTagMatchesGet | backend/actors/actors_controller.py:142-152 | after a 200 or 204 PATCH, a GET of the actor answers 200 with the tag the PATCH returned |
| Actors.AgeAndPhotoScenario | backend/actors/actors_controller.py:94-152 | `[add /age 4, remove /photoUrl]` on an actor it changes gives 200, stores age 4 and no photo, and a following GET shows the same tag, under the assumption that no two actor rows under the id share a tag |
| Actors.PhotoScenario | backend/actors/actors_controller.py:133-152 | adding a photo URL to an actor without one gives 200 and a tag different from the one before, under the assumption that no two actor rows under the id share a tag |
| Actors.PostedPhoto | backend/actors/actors_controller.py:61-63 | a posted photo URL is stored exactly when it is a string, and then stripped (`""` strips to itself) |
| Actors.NewActorFromBody | backend/actors/actors_controller.py:43-73 | a body that fails validation gives 400; otherwise the actor has the stripped name, the posted positive age and the posted photo URL |
| Actors.PostedGenderFails | backend/actors/actors_controller.py:47-67 | with the rest of the body valid, a truthy gender ends in 500, and only a missing, null or falsy gender stores an actor, with no gender |
| Actors.PostedGenderNameRefused | backend/actors/actors_controller.py:50-57 | posting gender "MALE" gives 400 |
| Actors.PostedGenderValueFails | backend/actors/actors_controller.py:59-67 | posting gender "M" passes validation, and the lookup `Gender["M"]` fails with 500 |
| Actors.NewActorFromBodyByName | backend/actors/actors_controller.py:43-73 | the corrected validator: accepted exactly when the body is valid with the gender checked by name; a stored gender is the one whose name was posted |
| Actors.PostedGenderStored | backend/actors/actors_controller.py:65-70 | under the corrected validator, posting a gender's name stores that gender |
| Actors.PostActor | backend/actors/actors_controller.py:43-73 | a refused body changes nothing; an accepted one is stored under the next id, which the 201 answer carries |
| Casts.CastIdRoundTrip | backend/casts/casts_controller.py:28 | `movie-{m}-actor-{a}` reads back as the pair (m, a) |
| Casts.CastIdInjective | backend/casts/casts_controller.py:28 | different pairs get different ids |
| Casts.CastRequestUnder | backend/casts/casts_controller.py:10-19 | the check itself, for any two keys: 500 for a non-object body, otherwise accepted exactly when both keys hold non-zero integers, yielding those two, and 400 for anything else |
| Casts.PostCastRequest | backend/casts/casts_controller.py:10-19 | the request is accepted exactly when `movie_id` and `actor_id` are non-zero integers, and it yields those two |
| Casts.SnakeCaseCastAccepted | backend/casts/casts_controller.py:10-19 | a body with non-zero `movie_id` and `actor_id` is accepted |
| Casts.CamelCaseCastRefused | backend/casts/casts_controller.py:10-19 | a body with only `movieId` and `actorId` is refused with 400 |
| Casts.ZeroIdRefused | backend/casts/casts_controller.py:10-16 | a zero id is refused with 400 |
| Casts.CamelCaseCastAccepted | backend/casts/casts_controller.py:10-19 | under the corrected reader, a camel-case body with non-zero ids is accepted |
| Casts.PostCastAddsOnlyThePair | backend/casts/casts_controller.py:6-34 | a 201 adds exactly the new pair, whose movie and actor exist, and answers with its id; any other outcome is 400 or 500 and changes nothing |
| Casts.DuplicateCastRefused | backend/casts/casts_controller.py:21-34 | posting the same pair again gives 400 and changes nothing |
| Casts.PostThenDelete | backend/casts/casts_controller.py:6-47 | with the corrected pair filter, deleting a pair just posted gives 200 with the same id and restores the pair set |
| Casts.DeleteRemovesOnlyThePair | backend/casts/casts_controller.py:36-47 | with the corrected pair filter, a delete gives 404 exactly when the pair is absent, and otherwise removes exactly that pair |
| Casts.RowsOfMovie | backend/casts/casts_controller.py:38-39 | as written, the filter keeps exactly the stored pairs of the URL's movie |
| Casts.DeleteCastAsWritten | backend/casts/casts_controller.py:36-47 | as written: 404 exactly when the movie has no cast row or several, and otherwise that one row is removed and named in the answer |
| Casts.DeleteOtherActorAsWritten | backend/casts/casts_controller.py:36-47 | as written, with pairs {(1,2)}, deleting (1,5) removes (1,2) and answers `movie-1-actor-2`, where the pair filter answers 404 |
| Casts.DeleteSharedMovieAsWritten | backend/casts/casts_controller.py:36-47 | as written, with pairs {(1,2),(1,3)}, deleting (1,2) answers 404, where the pair filter answers 200 |
| Casts.DeleteAsWrittenAgrees | backend/casts/casts_controller.py:36-47 | when the URL's pair is the movie's only cast row, both readings give the same answer and pair set |
| Casts.CastStore.PostCast | backend/casts/casts_controller.py:6-34 | the store's response and new pair set are those of `PostCastResult` |
| Casts.CastStore.DeleteCast | backend/casts/casts_controller.py:36-47 | with the corrected pair filter, the store's response and new pair set are those of `DeleteCastResult` |
| PatchBuilder.WrittenTo | backend/utilities/utilities.py:47-49 | a list writes nothing to a column exactly when no element's path names it |
| PatchBuilder.WrittenToAt | backend/utilities/utilities.py:47-49 | in a list naming each column once, an element's column reads that element's value |
| PatchBuilder.CheckEncoded | backend/utilities/utilities.py:37-49 | a sent add or remove on a known path passes the backend's checks and writes its value (None for a remove) |
| PatchBuilder.ReadBack | backend/utilities/utilities.py:34-51 | a list naming known columns, each once, converts without error, and every column reads what the list writes to it |
| PatchBuilder.OrEmpty | frontend/src/components/movies/EditMovie.tsx:79-82 | the initial form value is the loaded text when it is non-empty, and "" otherwise |
| PatchBuilder.OptionalFieldOps | frontend/src/components/movies/EditMovie.tsx:99-110 | an emptied field with a stored value sends a remove, a non-empty value other than the stored one sends an add, and an add of "" is never sent |
| EditMovie.BuildMoviePatches | frontend/src/components/movies/EditMovie.tsx:90-122 | the successive pushes build `MoviePatches` |
| EditMovie.MoviePatchesShape | frontend/src/components/movies/EditMovie.tsx:90-122 | the list names title, genre, poster_url and release_date, each at most once and in that order, all of them movie columns |
| EditMovie.PristineFormSendsNothing | frontend/src/components/movies/EditMovie.tsx:78-122 | a form still holding the loaded values sends an empty list |
| EditMovie.MoviePatchReads | frontend/src/components/movies/EditMovie.tsx:90-122 | each column reads the value of its own step, and other columns are unwritten |
| EditMovie.TitleOutcome | frontend/src/components/movies/EditMovie.tsx:93-95 | an unchanged title stays; a changed one whose trimmed form is not blank is stored as that trimmed form, stripped |
| EditMovie.GenreOutcome | frontend/src/components/movies/EditMovie.tsx:96-98 | the stored genre afterwards is the one the form names |
| EditMovie.PosterOutcome | frontend/src/components/movies/EditMovie.tsx:99-110 | an empty field leaves no poster URL, or the empty one already stored; a non-empty field leaves a URL that strips to the field's stripped text |
| EditMovie.DateOutcome | frontend/src/components/movies/EditMovie.tsx:111-122 | an empty field leaves no date; a non-empty field leaves its parsed date |
| EditMovie.FormData | frontend/src/components/movies/EditMovie.tsx:90-134 | the sent list converts without error, and the backend reads each column's step value |
| EditMovie.FormEdit | frontend/src/components/movies/EditMovie.tsx:90-122 | an acceptable form's list is accepted by the field loop, and the edited movie holds what the form holds |
| EditMovie.EditMovieStores | frontend/src/components/movies/EditMovie.tsx:90-136 | submitting an acceptable form gives 200 or 204 and changes only the edited movie, which then holds the form; 204 exactly when nothing changed, under the assumption that no two movie rows under the id share a tag; the tag is what a GET returns |
| EditMovie.BlankTitleRefused | frontend/src/components/movies/EditMovie.tsx:93-95 | a changed title that trims to "" is sent as "" and the backend refuses the PATCH with 400, writing nothing |
| EditActor.NumberFieldAge | frontend/src/components/actors/EditActor.tsx:217-227 | the corrected age field (`type="number"`) yields the leading decimal digits as a number, and "" when there are none |
| EditActor.NumberFieldReadsDigits | frontend/src/components/actors/EditActor.tsx:217-227 | typing the digits of n, followed by a non-digit or nothing, gives the number n |
| EditActor.BuildActorPatches | frontend/src/components/actors/EditActor.tsx:61-87 | the successive pushes build `ActorPatches` |
| EditActor.ActorPatchesShape | frontend/src/components/actors/EditActor.tsx:61-87 | the list names name, gender, photo_url and age, each at most once and in that order, all of them actor columns |
| EditActor.ActorPatchReads | frontend/src/components/actors/EditActor.tsx:61-87 | each column reads the value of its own step, and other columns are unwritten |
| EditActor.FormData | frontend/src/components/actors/EditActor.tsx:61-101 | the sent list converts without error, and the backend reads each column's step value |
| EditActor.PristineFormSends | frontend/src/components/actors/EditActor.tsx:48-87 | an untouched form still sends `add /gender ""` when no gender is stored, and `add /age ""` when the stored age is 0 |
| EditActor.PristineFormUnchanged | frontend/src/components/actors/EditActor.tsx:48-87 | for a stored age other than 0, submitting the untouched form answers 204 with the stored tag and writes nothing |
| EditActor.NameOutcome | frontend/src/components/actors/EditActor.tsx:64-66 | an unchanged name stays; a changed one whose trimmed form is not blank is stored as that trimmed form, stripped |
| EditActor.GenderOutcome | frontend/src/components/actors/EditActor.tsx:67-71 | an empty gender field leaves no gender, and a named gender is stored |
| EditActor.PhotoOutcome | frontend/src/components/actors/EditActor.tsx:72-80 | an empty field leaves no photo URL, or the empty one already stored; a non-empty field leaves a URL that strips to the field's stripped text |
| EditActor.AgeOutcome | frontend/src/components/actors/EditActor.tsx:81-87 | a numeric age that is unchanged, or changed to a non-zero value, is the age stored |
| EditActor.FormEdit | frontend/src/components/actors/EditActor.tsx:61-87 | an acceptable form's list is accepted by the field loop, and the edited actor holds what the form holds |
| EditActor.EditActorStores | frontend/src/components/actors/EditActor.tsx:61-101 | submitting an acceptable form gives 200 or 204 and changes only the edited actor, which then holds the form; 204 exactly when nothing changed, under the assumption that no two actor rows under the id share a tag; the tag is what a GET returns |
| EditActor.TextAgeRefused | frontend/src/components/actors/EditActor.tsx:81-87 | an age held as text is sent as a string, and the backend refuses the PATCH with 400, writing nothing |
| EditActor.TypedAgeRefused | frontend/src/components/actors/EditActor.tsx:217-227 | as written, any age typed into the field is refused with 400, and nothing is written |
| EditActor.TypedAgeStored | frontend/src/components/actors/EditActor.tsx:217-227 | with the corrected numeric field, a typed non-zero age is stored, and only the edited actor changes, under the assumption that no two actor rows under the id share a tag |

## Left out

- Flask and SQLAlchemy plumbing: routing, `request`, `jsonify`, `make_response`, sessions and `get_or_404`. A handler's inputs (Content-Type, parsed body, page, search term) are parameters, and its answer is a `Response` of status, tag and payload.
- Authentication (`requires_auth`, the JWKS validator and the frontend's Auth0 wiring), because it fetches keys over the network.
- `backend/app.py`: its error-handler table, CORS and stale duplicate routes are not part of this model.
- `delete_movie` and `delete_actor` are not modelled. They delete a row, which the patch protocol does not involve.
- `_create_etag` is a parameter `hash: Value -> string` rather than SHA-256 over `json.dumps`. "A changed row gets a new tag" is proved under the explicit hypothesis that no two rows under the same id share a tag.
- The `movies`/`actors` relationship is not modelled. `format()` does not include it, and nothing in the core reads it.
- `Listing.Matches`: `ilike` is modelled as plain case-insensitive substring matching for ASCII letters. `%` and `_` in the search term, database collation and non-ASCII case folding are not modelled.
- `Listing.Ordered`: the database's order among rows with equal fields is left open; the model picks one order that satisfies the proved properties.
- `Listing.PageIds`: requires page ≥ 1. A page of 0 or less gives a negative offset in the source, whose slicing depends on the database.
- `request.args.get(..., type=int)`: a non-integer page string is modelled as an absent page, so it becomes 1.
- Python's `bool` is a subclass of `int`, so `isinstance(True, int)` holds in the source. The model keeps JSON booleans distinct from integers. As a result, an age or cast id sent as `true` is refused in the model.
- `request.get_json()` failures are modelled as an absent or non-list body (400 for PATCH). A POST body that is not an object is modelled as a 500, which is what `body.get` raises.
- `Casts.CastStore.DeleteCast`: it models `delete_cast` with the corrected filter on the (movie, actor) pair. As written (`casts_controller.py:39`), Python's `and` returns its falsy first clause, so the query filters on the movie id alone. `Casts.DeleteCastAsWritten` models that reading, and the Findings table records it.
- `Casts.PostCastResult`: the foreign-key failure of a cast on a missing movie or actor is modelled by the sets of existing ids. Database rollback is not modelled.
- CamelToSnake: lower-cases ASCII capitals only. Python's `str.lower()` also lowers other scripts ("É" becomes "é"), and "İ" becomes two characters. Only the Kelvin sign lowers to an ASCII letter, `k`, and no column name holds a `k`, so which patch paths name a column is unaffected. The `_` insertion, whose regex class is `[A-Z]`, is ASCII-only in the source too.
- SnakeToCamel: upper-cases ASCII small letters only. Python's `str.upper()` also upper-cases other scripts, and some characters grow ("ß" becomes "SS", "ﬃ" becomes "FFI"), so in the source the result can be longer than the input. The keys it renames are the ASCII column names.
- ParseDate: accepts ASCII digits only. CPython's `_strptime` builds its pattern from `\d`, which also matches other Unicode decimal digits (fullwidth "２０２４-０１-０１" parses there).
- BadPathTypes: states the TypeError of Python before 3.12. From Python 3.12 on, slices are hashable, so `path[1:]` on a dict path raises KeyError (500) instead of TypeError (400). Other non-string paths raise TypeError in every version.
- `FieldCodec.CamelCased`: `_camel_case_dict` on a list of scalars fails in the source, and it fails in the model too (`None`). Which Python exception is raised is not modelled.
- `EditMovie.Loaded`, `EditActor.Loaded`: what the page loads is the GET payload, with each genre and gender written as its member name and each date as `YYYY-MM-DD`. The frontend's `Genre` and `Gender` enum values are assumed to be those member names; `frontend/src/models/genre.ts` and `gender.ts` are not part of this model.
- The frontend's yup validation schema, rendering and snackbar are not modelled. Instead, `AcceptableForm` states which forms the backend accepts, and `BlankTitleRefused`/`TextAgeRefused` state what happens to some forms it refuses.
- `EditActor.NumberFieldAge`: the corrected numeric field reads leading decimal digits only. Signs, spaces, fractions and exponents are not modelled.
- `EditActor.TypedAgeStored`: it states only the stored age and that no other row changes. The other columns are stated by `EditActorStores`, to which the proof reduces.
- `Movies.GetMovies`, `Actors.GetActors`: their contracts state only the status and the absent tag. The page contents are stated by `MoviesPage`/`ActorsPage` and the `Listing` lemmas.
- The imperative handlers `Movies.PostMovie` and `Actors.PostActor` model the code as written. The corrected actor validator `Actors.NewActorFromBodyByName` and the corrected cast reader `Casts.PostCastRequestCamel` (the same `Casts.CastRequestUnder` on the camelCase keys) are stated beside them, and the handlers do not use them.

## Findings

| source | as written | input that shows it | evidently intended | confidence | as-written member | corrected member |
|---|---|---|---|---|---|---|
| frontend/src/components/actors/EditActor.tsx:217-227 | The age `TextField` has no `type="number"`. Once it is edited, formik holds a string, and `onSubmit` sends it as-is (line 85). `update_actor` refuses any age that is not an int. | Edit a stored age 68 by typing `4`: the page sends `{"op":"add","path":"/age","value":"4"}`, and the answer is 400. | The field yields a number, so the typed age is stored. | high; not executed | EditActor.TypedAgeRefused | EditActor.TypedAgeStored |
| backend/actors/actors_controller.py:50-67 | `post_actor` checks the gender against the member values `M`/`F` (line 51), then looks it up by name with `Gender[gender]` (line 67). | `{"name":"A","age":30,"gender":"M"}` raises KeyError (500). `{"name":"A","age":30,"gender":"MALE"}` gives 400. | A gender given by member name is accepted and stored, as the PATCH handler does. | high; not executed | Actors.PostedGenderValueFails | Actors.PostedGenderStored |
| backend/casts/casts_controller.py:10-19 | `post_cast` reads the snake_case keys `movie_id`/`actor_id`. Every other request body in the service uses camelCase keys. | `{"movieId":1,"actorId":2}` gives 400. | The camelCase keys `movieId`/`actorId` are read. | medium; not executed | Casts.CamelCaseCastRefused | Casts.CamelCaseCastAccepted |
| backend/casts/casts_controller.py:36-47 | `delete_cast` joins its two filter clauses with Python `and`. SQLAlchemy's truth value of `Cast.movie_id == movie_id` compares the operand objects and is false, so `and` returns that first clause: the query filters on the movie id alone, and `one_or_404` answers 404 for no row or several. | With pairs {(1,2)}, `DELETE /casts/movies/1/actors/5` removes (1,2) and answers `movie-1-actor-2`. With pairs {(1,2),(1,3)}, `DELETE /casts/movies/1/actors/2` answers 404. | Both clauses filter (`and_`, or two `filter` calls), so exactly the named pair is deleted. | high; not executed | Casts.DeleteOtherActorAsWritten | Casts.DeleteRemovesOnlyThePair |
