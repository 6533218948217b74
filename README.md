# Charity site admin logic, modelled in Dafny

This project models the decision rules and store updates of a small Flask charity
site (`app.py`): the upload-name validator, the news and gallery lists kept in two
JSON files, the beneficiary table, the home page's "latest three news" selection and
the admin session gate. Flask, SQLAlchemy, JSON encoding and the file system are
abstracted away. What remains is pure functions over values plus one class, `Site`,
whose fields are the application state. Each route handler is a method of `Site`.

Modules, leaf first:

- `Wrappers`: `Option`.
- `Text`: Python's `str.isspace`, `name.split()[0]` (`FirstWord`) and ASCII `lower()`.
- `Uploads`: `allowed_file` (`Extension`, `AllowedFile`) and the public path
  `url_for('uploaded_file', filename=...)` (`UploadRef`) with its inverse.
- `JsonStore`: a JSON file as `Absent | Malformed | Valid(records)`, `load_data`,
  `save_data`, and the delete-by-id comprehension (`Without`).
- `News`: articles, the id derived from a uuid, the stable sort by descending id and
  the home page's latest three.
- `Gallery`: gallery records, the stored-name rule and the invariant that every
  record names a stored file.
- `Beneficiaries`: the beneficiary record and the image rules for add and edit.
- `Routes`: the class `Site` with one method per handler, and three client scenarios.

Every admin handler's contract says that, when the session flag is unset, it answers
`Redirect(LoginPage)` and leaves the whole state unchanged (`unchanged(this)`).

The model follows the code where it departs from the rule one would expect. One
might expect an edit with a different external URL to replace the image whenever no
valid upload comes with it. The code does this only inside
`if 'photo' in request.files`. So a request with no photo field at all keeps the old
image even when it carries a new URL. `EditedImageUrl` and
`EditIgnoresUrlWithoutPhotoField` keep the code's behaviour.

## Model

| member | source | states |
|---|---|---|
| Text.IsSpace | app.py:129 | the separators `str.split()` splits on; no ASCII letter, digit or dot is one |
| Text.Lower | app.py:37 | `str.lower()` on the extension: each ASCII capital becomes its small letter, every other character is kept, and no ASCII capital remains |
| Text.LeadingWord | app.py:129 | the result is the longest prefix of the string that holds no whitespace |
| Text.FirstWord | app.py:129 | `name.split()[0]`: None exactly when the name is all whitespace (the IndexError case); otherwise a non-empty word with no whitespace |
| Text.FirstWordOf | app.py:129 | for leading whitespace, a word and then either the end or a whitespace character, `split()[0]` returns exactly that word |
| Uploads.Extension | app.py:37 | `rsplit('.', 1)[1]`: None exactly when there is no dot; otherwise the dot-free suffix that follows the last dot |
| Uploads.AllowedFile | app.py:36-37 | a name that `allowed_file` accepts contains a dot and has at least four characters |
| Uploads.ExtensionAt | app.py:37 | for a dot that no other dot follows, the extension is exactly the text after that dot |
| Uploads.AllowedFileIff | app.py:36-37 | `allowed_file(f)` holds iff some dot in `f` has no dot after it and the lower-cased text after it is png, jpg, jpeg or gif |
| Uploads.RejectsVirusExe | app.py:36-37 | "virus.exe" is refused |
| Uploads.RejectsBareExtension | app.py:36-37 | "png" (no dot) is refused |
| Uploads.AcceptsUpperCase | app.py:36-37 | "a.PNG" is accepted, because the extension is lower-cased first |
| Uploads.AcceptsLastExtension | app.py:36-37 | "x.tar.gif" is accepted, because only the text after the last dot counts |
| Uploads.AcceptsUpload | app.py:124 | the upload test of the handlers: an accepted photo field is present and names a file with a dot |
| Uploads.UploadRef | app.py:127 | `url_for('uploaded_file', filename=name)` is the `/uploads/` route followed by exactly the name |
| Uploads.UploadedName | app.py:72-74 | a file name read back from a path is shorter than the path, and the path is exactly the reference to that name |
| Uploads.UploadRefRoundTrip | app.py:72-74 | the `/uploads/<filename>` path of a stored file leads back to that file name and is never empty |
| Uploads.UploadRefInjective | app.py:72-74 | two stored names with the same public path are the same name |
| JsonStore.LoadData | app.py:41-48 | a missing or malformed file loads as the empty list; a non-empty result is all the records of a well-formed file |
| JsonStore.SaveData | app.py:51-53 | after a save the file is well-formed and loads back as exactly the list written |
| JsonStore.Without | app.py:196 | after a delete by id, no record carries that id and the list is no longer |
| JsonStore.WithoutCounts | app.py:239 | a delete keeps every record whose id differs exactly as often as before and drops every record with the id |
| JsonStore.WithoutIsSubsequence | app.py:239 | a delete keeps the surviving records in their original relative order |
| JsonStore.WithoutIdempotent | app.py:196 | deleting an id twice gives the same list as deleting it once |
| JsonStore.WithoutAbsent | app.py:196 | deleting an id that no record carries leaves the list as it was |
| News.NewsId | app.py:181 | the new article's id is below 2^64 and differs from the uuid by a multiple of 2^64 (it is the uuid's low 64 bits) |
| News.NewsIdOfUuid4 | app.py:181 | for a version-4 uuid the id is at least 2^63, so never zero, because the variant bit 63 is always set |
| News.InsertById | app.py:188 | inserting one article adds exactly that article to the list, one longer, with either it or the former first article in front |
| News.InsertKeepsSorted | app.py:188 | inserting into a list in descending id order keeps it in descending id order |
| News.SortByIdDesc | app.py:188 | `sorted(..., key=id, reverse=True)`: the result is a permutation of the list, in descending id order |
| News.WithIdOfInsert | app.py:188 | an inserted article lands in front of the articles that share its id |
| News.SortByIdDescStable | app.py:188 | articles with equal ids keep their order from the file, as Python's stable sort does |
| News.SortedPrefix | app.py:83 | a prefix of a descending list is descending, and no later element has a higher id |
| News.LatestNews | app.py:83 | the home page shows min(3, n) articles, in descending id order, all from the list, and no article left out has a higher id than one shown |
| Gallery.NewImage | app.py:215-219 | the new gallery record's id is the stored file name, and its url leads back to that same name |
| Gallery.BackedAfterAdd | app.py:215-220 | storing a file and appending its record keeps every record naming a stored file at that file's path |
| Gallery.BackedAfterDelete | app.py:233-239 | removing a file and the records with its id keeps every remaining record backed by a stored file |
| Beneficiaries.Placeholder | app.py:129 | the placeholder is the fixed placehold.co address followed by exactly the given word |
| Beneficiaries.NewImageUrl | app.py:121-129 | the image priority of a new beneficiary: an accepted upload gives its `/uploads/` path; otherwise a non-empty form URL is used as given; otherwise the placeholder of the name's first word. It fails (the handler raises) exactly when there is no accepted upload, no form URL and no word in the name. The image is never empty |
| Beneficiaries.PlaceholderForAna | app.py:129 | name "Ana" with no photo and no URL gives the placeholder ending in "Ana" |
| Beneficiaries.EditedImageUrl | app.py:149-156 | an accepted upload always replaces the image with its `/uploads/` path; without one the image is the old image or the form URL |
| Beneficiaries.EditedImageChanges | app.py:149-156 | the image changes iff the photo field is present and either the accepted upload leads elsewhere, or the upload is refused and the form URL is non-empty and different |
| Beneficiaries.EditIgnoresUrlWithoutPhotoField | app.py:149-156 | without a photo field the form URL is ignored, even a new one |
| Routes.Site.Index | app.py:77-84 | the home page shows every beneficiary, the latest three articles of the loaded news list and the loaded gallery |
| Routes.Site.AdminLogin | app.py:88-96 | the flag is set, with a redirect to the dashboard, only when both username and password match; otherwise nothing changes |
| Routes.Site.AdminLogout | app.py:106-109 | the flag is cleared and no store changes |
| Routes.Site.AdminDashboard | app.py:99-103 | a logged-in session gets the dashboard with every beneficiary row; otherwise the answer is a redirect to login and no rows |
| Routes.Site.AddBeneficiary | app.py:113-135 | gated. One row is added under the fresh id, with amount_collected 0 and the image `NewImageUrl` picks. An accepted upload is stored. A blank name with neither upload nor URL is a server error with no row |
| Routes.Site.ShowEditForm | app.py:138-141 | gated; a missing id is not-found, otherwise the stored record is returned |
| Routes.Site.EditBeneficiary | app.py:138-159 | gated; a missing id is not-found with nothing changed. Otherwise name, story and both amounts are replaced, the image follows `EditedImageUrl`, and every other row is untouched |
| Routes.Site.DeleteBeneficiary | app.py:163-170 | gated; a missing id is not-found, otherwise exactly that row is removed |
| Routes.Site.ListNews | app.py:174-189 | gated; the admin news page lists the loaded articles by descending id |
| Routes.Site.AddNews | app.py:174-186 | gated; the file afterwards holds the loaded list followed by exactly one new article {id below 2^64, title, content} |
| Routes.Site.DeleteNews | app.py:192-199 | gated; the file afterwards holds the loaded list without the articles carrying the id |
| Routes.Site.ListGallery | app.py:203-225 | gated; the admin gallery page lists the loaded records |
| Routes.Site.AddGalleryImage | app.py:203-225 | gated. A missing field or an empty file name redirects back, and a refused extension re-renders; both leave everything unchanged. An accepted upload stores one file and appends one record for it, keeping records backed by stored files |
| Routes.Site.DeleteGalleryImage | app.py:228-242 | gated; the stored file is removed if present, and the file is rewritten without the records carrying the id; records stay backed by stored files |
| Routes.AddThenRead | app.py:113-141 | for any request the add handler accepts (with or without an upload or URL), the beneficiary read back is exactly the submitted name, story and amount, collected 0 and the image `NewImageUrl` picks |
| Routes.DeleteThenRead | app.py:163-170 | reading a beneficiary after deleting it is not-found |
| Routes.LogoutThenAddNews | app.py:106-109 | after logout, adding news is turned away and the news file is unchanged |

## Left out

- Flask routing, templates, flash messages and redirect URLs: a handler's answer is the `Response` datatype. The GET forms of the login page and of the admin pages render templates only.
- Form parsing: missing form fields (Flask's 400 error) and `int(...)` on form fields are not modelled. Amounts are integers given by the caller, and an absent `image_url` field is the empty string, because both are falsy in Python.
- SQLAlchemy: the table is a map from id to record, and the new row's id is a parameter that must not be in use. SQLite may hand out the id of a deleted last row again; the model neither forbids nor promises that. The column length limits (100 and 200) are not enforced by SQLite and are not modelled. The ORM object edited in place is modelled as a record replaced in the map.
- The dashboard's `ORDER BY id DESC` and the home page's beneficiary order are not modelled: `Site.AdminDashboard` and `Site.Index` return the table as a map, which has no order.
- JSON encoding: a readable file holds records of the expected shape. A file holding valid JSON of another shape, on which the handlers would raise, is not modelled.
- Uploaded bytes: the uploads directory is the set of stored names. `os.remove` in the gallery delete removes the name if present, and a missing file is ignored as in the source.
- Site.DeleteGalleryImage: a removal that fails on a file that exists (no permission, or the name is a directory) leaves the file in place in the source, while the model always drops the name from the uploads set. The error is printed and ignored in both.
- JsonStore.LoadData: `load_data` catches only `JSONDecodeError` and `FileNotFoundError`. A file that exists but cannot be opened or decoded (no permission, a directory, bytes that are not UTF-8) makes it raise. `FileState` has no such case, so the model does not capture that error.
- Uploads.UploadedName: it reads back an empty name from `/uploads/` and a name containing `/` from `/uploads/a/b`, which the `<filename>` converter of the route does not match. This does not affect the model, which only reads back names it built itself.
- The gallery's stored name `secure_filename(f"{uuid.uuid4()}_{file.filename}")` appears as `sanitize(token + "_" + filename)`, with `sanitize` and the textual uuid `token` given by the caller.
- `uuid.uuid4()` and werkzeug's `secure_filename` are parameters (`uuid`, `token`, `sanitize`). `url_for('uploaded_file', ...)` is `"/uploads/" + name`, assuming the site is mounted at the root and the sanitised name needs no percent-encoding.
- `Text.LowerChar`: Python's `str.lower()` is modelled on ASCII letters only. For membership in {png, jpg, jpeg, gif} this is exact, since the only non-ASCII character that lower-cases to an ASCII letter is the Kelvin sign, which becomes `k`.
- Concurrency: two requests racing on a JSON file can lose an update. Handlers are modelled one at a time.
- Duplicate news ids are not checked, in the source or in the model. A new article is first on the re-sorted list only when its id is the highest; nothing promises that.
