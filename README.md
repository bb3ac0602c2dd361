# CustomShortcut data entry: route parsing and path joining

This project models the string routines of the CustomShortcut example application
that ships with nntrainer (`Applications/Tizen_native/CustomShortcut/src/data.c`):

- `data_parse_route` duplicates a route string such as `"train:smile"`. It points
  `*route` at the copy and scans the copy for the first `':'`. When it finds one,
  it overwrites it with a terminator and points `*data` just past it. Otherwise
  `*data` is NULL. A NULL `route` or `data` out-parameter is rejected with
  `APP_ERROR_INVALID_PARAMETER`.
- `data_get_resource_path` and `data_get_data_path` obtain a root directory from
  the platform. They reject an unavailable root, then a NULL `full_path`. Otherwise
  they write `root` followed by `file` into `full_path` with
  `snprintf(full_path, PATH_MAX, "%s%s", ...)`.

The model is imperative where the C code is:

- C strings live in `array<char>` buffers and end with `'\0'` (`LibC.CStr` reads one).
- A `char *` is a buffer plus an offset (`LibC.Ptr`).
- A caller's `char *` variable, which the callee reaches through a `char **`, is an
  object (`LibC.CharPtrVar`), so a NULL out-parameter is a null reference.
  `route` and `data` may name the same variable.
- The scan keeps the C loop with its `break`. It writes the terminator into the
  copy in place.
- The source string is itself a buffer, and the contract states that it is left
  unchanged.
- What the parse means is `Data.SplitRoute`, a function on sequences. Its
  round-trip lemmas state what a caller may rely on.

The platform root getters (`app_get_resource_path`,
`app_get_shared_resource_path`, `app_get_data_path`) become `Option<CString>`
parameters, where `None` stands for the NULL they return on failure.
`PATH_MAX` is 4096, the value in the Linux `<limits.h>`. The error codes are the
datatype `LibC.AppError`. Their numeric values come from the platform's
`app_common.h`, which is not part of this model.

## Model

| member | source | states |
|---|---|---|
| `Data.SplitRoute` | Applications/Tizen_native/CustomShortcut/src/data.c:28-41 | The route part never contains `':'`. There is no data part exactly when the string has no `':'`, and then the route is the whole string (the empty string included). Otherwise route, `':'`, data concatenate back to the string. |
| `Data.SplitRouteAt` | Applications/Tizen_native/CustomShortcut/src/data.c:30-36 | The split happens at the first `':'` and nowhere else: with the first separator at `i`, the route is `s[..i]` and the data is `s[i+1..]`. |
| `Data.SplitThenRejoin` | Applications/Tizen_native/CustomShortcut/src/data.c:28-41 | Rejoining the route and data (with `':'` when there is data) gives back the original string. |
| `Data.RejoinThenSplit` | Applications/Tizen_native/CustomShortcut/src/data.c:30-36 | Any route without `':'` and any data, joined with `':'`, split back into exactly that route and data. Data may hold further `':'` characters. |
| `Data.SeparatorCut` | Applications/Tizen_native/CustomShortcut/src/data.c:31-34 | Take a copy of `s` whose first separator, at `i`, is overwritten with `'\0'`. The C string at the copy's start is the route of `SplitRoute(s)`, and the C string at `i + 1` is its data. |
| `Data.NoSeparator` | Applications/Tizen_native/CustomShortcut/src/data.c:39-41 | When `s` has no `':'`, the untouched copy reads as the whole of `s`, which is its route, and a NULL `data` is what `SplitRoute(s)` gives. |
| `Data.ParseRoute` | Applications/Tizen_native/CustomShortcut/src/data.c:17-44 | A NULL `route` or `data` yields `ErrorInvalidParameter`, and neither variable is assigned. Otherwise the result is `ErrorNone` and `*route` points at the start of a fresh copy. The copy reads as the route of `SplitRoute(source)`. `*data` points just past the route in the copy and reads as the data, or is NULL when there is no separator. `source` is unchanged. |
| `LibC.StrDup` | Applications/Tizen_native/CustomShortcut/src/data.c:18 | The copy is a fresh buffer holding the source's characters and one terminator. |
| `LibC.Truncated` | Applications/Tizen_native/CustomShortcut/src/data.c:65 | What snprintf keeps of a text for a bound `size`: fewer than `size` characters, and a prefix of the text. It is the whole text exactly when the text is shorter than `size`. Otherwise it is exactly `size - 1` characters. |
| `LibC.Snprintf` | Applications/Tizen_native/CustomShortcut/src/data.c:88 | The buffer afterwards holds the truncated text, one terminator, and its old contents after that. It reads as the truncated text. |
| `Data.JoinedPath` | Applications/Tizen_native/CustomShortcut/src/data.c:65 | The joined path has at most `PATH_MAX - 1` characters and is a prefix of `root + file`. It equals `root + file` exactly when that fits. It always starts with the whole root when the root itself fits. |
| `Data.JoinRoot` | Applications/Tizen_native/CustomShortcut/src/data.c:54-69 | An unavailable root yields `ErrorInvalidParameter` and leaves `full_path` untouched. So does a NULL `full_path`. Otherwise the result is `ErrorNone` and `full_path` holds the joined path and a terminator, with the rest of the buffer unchanged. |
| `Data.GetResourcePath` | Applications/Tizen_native/CustomShortcut/src/data.c:46-70 | Same outcomes as `JoinRoot`, with the shared resource root when `shared` holds and the application resource root otherwise. |
| `Data.GetDataPath` | Applications/Tizen_native/CustomShortcut/src/data.c:72-93 | Same outcomes as `JoinRoot`, with the application data root. |

## Left out

- The tensor memory planners, memory and tensor pools, and the cache/swap subsystem are not part of this model. Their source files are not part of this model either.
- `_on_data_receive`, `_run_nnpipeline` and `data_extract_feature` (data.c:95-244) are left out. They are mutex and condition-variable handoff, ML pipeline construction through a foreign C API, and PNG and file writing: concurrency and I/O.
- `data_train_model` (data.c:246-299) is left out. It writes a file and calls the foreign training API, with no logic of its own.
- `nntrainer/tensor/weight.h` and `nntrainer/include/layer.h` are left out. They are class declarations and a pure-virtual interface whose bodies delegate to tensor code that is not part of this model, and their arithmetic is floating point.
- `LibC.StrDup`: an allocation failure of `strdup` is not modelled; the copy always succeeds. In C a failed copy makes the scan dereference NULL.
- `LOG_E`/`LOG_D` logging and the `free` calls are not modelled. Neither changes any value the model states, and the model does not track memory release.
- The platform root getters are inputs, not calls. Which directories they return is platform state that the model does not know.
- `LibC.Snprintf` models only the `"%s%s"` format that data.c uses: the formatted text is the concatenation of its two arguments. A NULL `file` argument is undefined behaviour in C and is excluded by its type.
