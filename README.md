# reserve-copy, modelled in Dafny

`main.py` copies the profile photos of a VK user to Yandex.Disk. It
resolves the user identifier, lists the profile album with all size
variants, keeps for each photo a record `{id, url, likes, date}` whose url
is the widest variant, creates a destination folder and asks Yandex.Disk to
fetch every photo by URL. Each file is named after its like count. The
first photo with a given count gets `<likes>.jpg`. Every later photo with
that count gets `<likes>_<time>.jpg`, where `<time>` is the clock reading at
its upload.

The model treats every network answer and every clock reading as an input:

- `users.get` and `photos.get` answers are the datatypes `Vk.UsersResponse`
  and `Vk.PhotosResponse`;
- the HTTP status of the folder request is `folderStatus`, and the status of
  each upload is one element of `statuses`;
- the formatted `datetime.now()` reading of each photo is one element of
  `stamps`.

Files:

- `decimal.dfy` (module `Decimal`): decimal text of integers (`str(n)`,
  `int(s)`, ASCII `isdigit`), with the round trip and injectivity that make
  like-count names unambiguous.
- `vk.dfy` (module `Vk`): the identifier branch of `VK.__init__`,
  `get_largest_photo_url` as a first-maximal-width index, and the
  record-building loop of `get_photos` as a method.
- `yandex_disk.dfy` (module `YandexDisk`): the status handling of
  `create_folder` and of each upload, and `upload_photos` as a method whose
  loop updates the `photo_names` table. `NameAt` is an independent
  definition of the name photo `i` gets, stated through the set of like
  counts seen before it rather than through the table. The lemmas say when
  two uploads of one run land on the same path.
- `backup.dfy` (module `Backup`): the script's main sequence.

Two details follow the code where a reader might expect otherwise:

- Folder creation happens inside `upload_photos` (main.py:112), not as a
  separate step of the main sequence.
- `get_numeric_id` checks for a `response` key first and only otherwise
  reads the error message (main.py:81-84). An empty `response` list raises
  an index error in the code; the model reports it as `UserListEmpty`.

## Model

| member | source | states |
|---|---|---|
| `Decimal.IsDigits` | main.py:28 | `isdigit` over ASCII: an all-digit text is non-empty and a numeral without a minus sign |
| `Decimal.DecimalValue` | main.py:47 | `int(s)` of a digit string; for a numeral without a leading zero, writing the value back with `str` gives the same text |
| `Decimal.NatToDecimal` | main.py:124 | `str(n)` of a natural number is a non-empty digit string without a leading zero |
| `Decimal.IntToDecimal` | main.py:124 | `str(n)` is non-empty, uses only digits and `-`, starts with `-` exactly for negative `n`, and has no leading zero (a lone `0` aside) |
| `Decimal.IntToDecimalRoundTrip` | main.py:124 | the text `str(n)` reads back as `n`: its digits give `n`, or `-n` after the minus sign of a negative `n` |
| `Decimal.LeadingZero` | main.py:47 | an all-digit identifier with leading zeros reads as the number without them: `int("0" + s) == int(s)` |
| `Decimal.DecimalRoundTrip` | main.py:47 | reading back with `int` the decimal text of `n` gives `n` |
| `Decimal.IntToDecimalInjective` | main.py:124 | two like counts with the same decimal text are equal |
| `Vk.ResolveOwner` | main.py:28-29 | with the `get_numeric_id` lookup of main.py:74-84: an all-digit identifier always resolves, to a non-negative id; any other resolves exactly when `users.get` returns a non-empty list, to its first id; every failure is an API error or an empty user list |
| `Vk.DigitIdNeedsNoLookup` | main.py:28-29 | an all-digit identifier resolves to its decimal value, whatever `users.get` would answer, so no lookup matters |
| `Vk.NumericIdResolvesToItself` | main.py:47 | the identifier `str(n)` resolves to the owner id `n` |
| `Vk.ScreenNameUsesLookup` | main.py:81-84 | a non-digit identifier resolves exactly when `users.get` returns a non-empty list, to its first id; an error answer gives `ApiError` with the provider's message |
| `Vk.FirstMaxIndex` | main.py:88 | the chosen size is as wide as every size, and strictly wider than every size before it (ties go to the earliest) |
| `Vk.FirstMaxIndexUnique` | main.py:88 | those two properties single out one index, so the chosen index is the first maximal one |
| `Vk.LargestUrl` | main.py:86-88 | the url belongs to a size of maximal width with no equally wide size before it |
| `Vk.LargestOfThree` | main.py:86-88 | sizes 100, 800 and 400 wide give the url of the 800-wide size |
| `Vk.LargestTieGoesFirst` | main.py:88 | of two equally wide widest sizes, the earlier one's url is chosen |
| `Vk.CollectPhotos` | main.py:55-63 | one record per item, same length and order; id, likes and date copied and url the largest size's; a missing item list gives `ItemsMissing`; the first item with no sizes gives `SizesEmpty` at its index |
| `YandexDisk.CreateFolderOutcome` | main.py:103-108 | 201 is "created", 409 is "already exists", both success; every other status is a reported error carrying that status |
| `YandexDisk.UploadOutcomeOf` | main.py:133-134 | an upload is an error exactly when its status is not 202 |
| `YandexDisk.PlainName` | main.py:124 | `<likes>.jpg`, where the numeral before the extension is exactly `str(likes)` |
| `YandexDisk.SuffixedName` | main.py:122 | `<likes>_<time>.jpg`, where the numeral before the underscore is exactly `str(likes)`, followed by the clock reading and the `.jpg` extension |
| `YandexDisk.NamesReadBack` | main.py:122-124 | the numeral in front of either kind of name is exactly `str(likes)`, and reads back as the like count |
| `YandexDisk.PathOf` | main.py:128 | the path is the folder, a slash, then the file name, and both parts can be read back from it |
| `YandexDisk.ChooseName` | main.py:121-124 | the name is the plain one exactly when the like count is not yet in the table, and the one suffixed with this photo's clock reading exactly when it is |
| `YandexDisk.NameChoice` | main.py:121-124 | when the table's keys are the like counts seen so far, the loop's table lookup picks the name `NameAt` defines |
| `YandexDisk.TableStep` | main.py:126 | storing the new name under its like count keeps every key at the name of the last photo processed with that count |
| `YandexDisk.UploadStep` | main.py:119-132 | one pass of the loop appends photo `i`'s request under the name `NameAt` gives it, adds its like count to the table's keys, and keeps every key at the name of the last photo with that count |
| `YandexDisk.UploadPhotos` | main.py:110-134 | the folder outcome comes from its own status; every photo is attempted once, in input order, whatever any status was; attempt `i` goes to folder `folder` under `NameAt(i)` with the photo's url, and is an error only for its own non-202 status; the final table's keys are exactly the like counts of the photos, each holding the name of the last photo with that count |
| `YandexDisk.NamesDetermineParts` | main.py:121-124 | a file name determines its like count, whether it is suffixed, and the clock reading in it; a plain name never equals a suffixed one |
| `YandexDisk.PathsEqualIffNames` | main.py:128 | in one folder, two upload paths are equal exactly when the file names are |
| `YandexDisk.FirstOfLikesGetsPlainName` | main.py:119-126 | photo `i` is named `<likes>.jpg` exactly when no earlier photo has its like count, and `<likes>_<its own clock reading>.jpg` exactly when one does |
| `YandexDisk.PathsCollideIff` | main.py:119-128 | two uploads of a run share a path exactly when their like counts are equal, neither is the first with that count, and their clock readings are equal |
| `YandexDisk.DistinctStampsGiveDistinctPaths` | main.py:119-128 | when every photo's clock reading differs, no two uploads share a path |
| `YandexDisk.SameSecondCollision` | main.py:119-128 | three photos with 5 likes read at the same second: the first is `5.jpg`, the second `5_<time>.jpg`, and the third goes to the second's path |
| `Backup.RunBackup` | main.py:138-142 | a failed identity lookup or photo listing ends the run with that failure and no upload; an item with no sizes ends it with `SizesEmpty` at the first such index; otherwise one record per item with its id, likes, date and largest url, the folder outcome from its status, and every record uploaded under `VK_Photos/<NameAt(i)>` with its own outcome |

## Left out

- HTTP traffic (`requests.get`, `put` and `post`): its decoded answers and status codes are inputs. The request URLs, headers, API version and tokens are not modelled.
- Loading the tokens from the environment, the check that they are present, and the interactive `input()`: process I/O.
- Writing `photos_info.json`: file I/O through the `json` library. The list written is the list returned, `Run.records`.
- `datetime.now().strftime(...)`: the formatted reading of each photo is an opaque input string. Nothing makes two readings differ; `SameSecondCollision` shows what equal readings do.
- The `tqdm` progress bar and the `print` messages, including the `response.json()` calls inside the error messages (main.py:108, 134). Those calls raise when an error answer's body is not JSON, which ends the run inside `create_folder` or partway through the upload loop. The model assumes error bodies are JSON. Under that assumption every photo is attempted whatever the statuses, as `YandexDisk.UploadPhotos` and `Backup.RunBackup` state.
- `users_info`: it is never called, and it is only a request.
- Unicode semantics of `str.isdigit`: the model accepts ASCII digits only. A string of other Unicode digits is treated as a screen name.
- Malformed VK answers: the response datatypes are typed, so only a missing item list, an empty size list, an `error` answer and an empty user list are modelled as failures. Not modelled: a `photos.get` item lacking a field such as `likes`; a `users.get` answer with neither `response` nor `error`, which raises `KeyError` at main.py:84; and a VK body that is not JSON, which raises at main.py:53 and 79.
- Vk.LargestUrl: requires a non-empty size list, where Python's `max` raises instead. `CollectPhotos` models that exception as `SizesEmpty`.
- YandexDisk.UploadPhotos: requires one clock reading and one status per photo. Inside the script the clock and the network supply exactly one of each per photo.
- YandexDisk.UploadPhotos: `photo_names` is a local variable in the source. The method returns it so that its final state can be stated.
