# enki chat front-end: model picker and credential store

A Dafny model of the logic inside the enki Streamlit chat page. The rest of
the page is UI, and the model covers three pieces:

- **Model picker** (`streamlit_app.py`). The catalog `model_options` maps each
  category to a list of model names. It is flattened into the entries of one
  drop-down. Each category contributes a header `"🔹 " + category`, followed by
  one entry `"\u2003\u2003" + model` (two em spaces, U+2003) per model. The picked entry is decoded back into a
  model name: an entry starting with the two em spaces yields its `strip()`-ed text,
  and anything else (a header) yields no model.
- **Registration** (`create_users.py`, `add_user`). The store is loaded, and its
  `"usernames"` mapping is created if missing. A taken username is refused with
  an error and nothing is saved. Otherwise the record `{name, password: hash}`
  is inserted and the store is saved.
- **API-key settings** (`settings.py`, `api_key_settings`). The user's
  `api_key` is read, with `""` when the user or the key is absent. On save, a
  record is created for an unknown user, its `api_key` is overwritten, and the
  store is saved.

Modules, one per file:

- `Wrappers`: Option/Result/Outcome for Python's `None` and raised exceptions.
- `PyStr`: Python's `str.strip()`, with the exact `str.isspace()` character set,
  and `startswith`.
- `ModelCatalog`: the catalog, the flattening loop (`BuildDisplay`) proved
  against the function `Flatten`, the decoder, and the layout/round-trip
  lemmas.
- `UserStore`: the loaded dictionary (`Users`, reduced to its `"usernames"`
  entry), and the `users.yaml` file as a class. Its `Load` gives the empty
  default `{"usernames": {}}` when the file is missing. Its `Save` overwrites
  the file and logs every write in a ghost `saves` sequence, so "saved once" and
  "never saved" can be stated.
- `CreateUsers`: `Register`, the rule on the `"usernames"` mapping, and the
  method `AddUser`, which loads, updates step by step and saves.
- `Settings`: `StoredApiKey`, `WithApiKey` and the method `ApiKeySettings`.
- `StoreLifecycle`: how registration and the key settings interact, plus two
  end-to-end scenarios on a fresh store.

The password hasher is a parameter `hash: string -> string` and nothing is
assumed about it. The hasher may salt its output, so two calls may be passed
different functions. The picked drop-down entry, the text in the key input and
whether the save button was pressed are plain inputs.

Registration validates no field and stores no e-mail. A user has a single
`api_key` field. Headers and model entries are plain strings, told apart by
their first two characters.

On the settings page, a loaded dictionary with no `"usernames"` key makes
`users["usernames"]` raise `KeyError` (settings.py:9). The model returns the
error `NoUsernames` and writes nothing.

## Model

| member | source | states |
|---|---|---|
| `ModelCatalog.BuildDisplay` | streamlit_app.py:20-25 | the nested append loops build exactly `Flatten(catalog)`: every category's header, then its models' entries, in order |
| `ModelCatalog.FlattenLength` | streamlit_app.py:21-25 | the display list has one entry per category plus one per model, counting a model once for each category that lists it |
| `ModelCatalog.FlattenLayout` | streamlit_app.py:22-25 | category `i`'s header `"🔹 " + category` stands at `i + (models of earlier categories)`, and its models follow directly as `"\u2003\u2003" + model`, in list order |
| `ModelCatalog.Locate` | streamlit_app.py:21-25 | every display position is either some category's header or the entry of one of that category's models; the list holds nothing else |
| `ModelCatalog.HeaderIndexGrows` | streamlit_app.py:22-25 | sections appear in catalog (dictionary iteration) order: an earlier category's whole section ends before a later category's header |
| `ModelCatalog.Decode` | streamlit_app.py:30-34 | a model is produced exactly when the entry starts with two em spaces (U+2003); the model is stripped of surrounding whitespace and is shorter than the entry |
| `ModelCatalog.DecodeEntry` | streamlit_app.py:25-32 | decoding `"\u2003\u2003" + m` yields `m.strip()`, so it gives back `m` exactly when `m` has no leading or trailing whitespace |
| `ModelCatalog.DecodeHeader` | streamlit_app.py:23-34 | a category header never starts with the two-em-space indent, so picking it yields no model |
| `ModelCatalog.DecodeDisplay` | streamlit_app.py:21-34 | in a catalog of clean names, any display entry decodes to no model if it is a header, and otherwise to exactly the model listed at that place |
| `ModelCatalog.Selectable` | streamlit_app.py:24-32 | every clean model name of the catalog has an entry in the list that decodes back to it |
| `ModelCatalog.RepeatedModel` | streamlit_app.py:22-25 | a model listed under two categories gets two distinct entries, both `"\u2003\u2003" + model`, and both decode to that model when its name is clean |
| `ModelCatalog.ModelOptionsCleanNames` | streamlit_app.py:4-18 | every model name of the shipped catalog has no surrounding whitespace |
| `ModelCatalog.ModelOptionsLength` | streamlit_app.py:4-25 | the shipped catalog (29 + 3 models) flattens to 34 entries, with headers at positions 0 and 30 |
| `ModelCatalog.AsciiIndentIsNoEntry` | streamlit_app.py:31-34 | an entry indented with two ordinary spaces instead of the em spaces decodes to no model |
| `ModelCatalog.ModelOptionsDuplicate` | streamlit_app.py:8-25 | "gpt-4o", listed under both shipped categories (lines 8 and 16), appears at positions 11 and 31 as `"\u2003\u2003gpt-4o"`, and both entries decode to "gpt-4o" |
| `PyStr.StripStart` | streamlit_app.py:32 | `lstrip()`: the result is the suffix left after removing leading whitespace, and it does not start with whitespace |
| `PyStr.StripEnd` | streamlit_app.py:32 | `rstrip()`: the result is the prefix left after removing trailing whitespace, and it does not end with whitespace |
| `PyStr.Strip` | streamlit_app.py:32 | `strip()` returns the slice of the input with only whitespace before and after it, itself starting and ending with no whitespace; a string with none is returned unchanged |
| `PyStr.StripStartSkipsSpace` | streamlit_app.py:25-32 | leading whitespace, such as the two-em-space indent, does not change what `lstrip()` returns |
| `UserStore.UsersFile.Load` | auth.py:10-16 | loading gives the stored document, or `{"usernames": {}}` when the file does not exist |
| `UserStore.UsersFile.Save` | auth.py:18-20 | saving replaces the whole file with the document and is recorded as one more write |
| `CreateUsers.NewRecord` | create_users.py:14-17 | a new user's record has exactly the fields `name` and `password`, holding the name and the hash |
| `CreateUsers.UsernamesOf` | create_users.py:7-8 | the `"usernames"` mapping, created empty when the key is missing |
| `CreateUsers.Register` | create_users.py:10-17 | refused with `UserExists` if and only if the username is taken; otherwise exactly one user is added, with record `{name, password: hash}`, and every other user keeps its record |
| `CreateUsers.AddUser` | create_users.py:5-19 | on a taken username it fails before saving and the file is untouched; otherwise the file is written once, with the loaded store (its `"usernames"` created if missing) plus the new user, whose password is the hasher's output for the given password |
| `Settings.StoredApiKey` | settings.py:9 | the shown key is the stored `api_key`, or `""` when the user or the field is absent, without failing |
| `Settings.WithApiKey` | settings.py:12-14 | after a save, reading the key gives exactly the saved string; an unknown user's new record holds only `api_key`; a known user's other fields and all other users are unchanged |
| `Settings.LastSaveWins` | settings.py:12-14 | saving twice for one user equals saving the second key once |
| `Settings.SaveSameKey` | settings.py:9-14 | saving the key a user already has leaves the store unchanged |
| `Settings.ApiKeySettings` | settings.py:5-15 | shows the stored key; without a save, or when `"usernames"` is missing (`KeyError`), the file is untouched; on a save, the file is written once with the entered key stored for the user |
| `StoreLifecycle.NewUserHasNoKey` | create_users.py:14-17 | a freshly registered user reads `""` as their API key |
| `StoreLifecycle.SaveKeepsCredentials` | settings.py:12-14 | saving a key for a registered user keeps their name and password hash; the record is then exactly `{name, password, api_key}` |
| `StoreLifecycle.SavedKeyBlocksRegistration` | settings.py:12-13 | saving a key for an unregistered username creates its record, so registering that username afterwards is refused |
| `StoreLifecycle.RegisterTwice` | create_users.py:5-19 | on a fresh store, registering "alice" succeeds and a second attempt fails with `UserExists`, leaving exactly one user whose password is the hasher's output |
| `StoreLifecycle.SaveThenRead` | settings.py:5-15 | a registered user first sees `""`, saves a key and then sees that key; their name and password hash are kept |

## Left out

- All Streamlit rendering and input calls (`st.selectbox`, `st.warning`, `st.success`, `st.header`, `st.text_input`, `st.button`). The picked entry, the text in the key input and the save flag are parameters. The success banner for a non-empty model (streamlit_app.py:38-40) is UI.
- auth.py `get_authenticator`, `login` and `logout`: thin wrappers over a library that is not part of this model. The cookie name, secret and expiry are configuration for that library.
- The YAML format. A document is modelled only by its `"usernames"` entry, with string field values. Other top-level keys, which load/save would carry through unchanged, are not modelled. Neither are YAML `null` values or an existing but empty `users.yaml` (on which `load_users` returns `None`).
- The password hasher (`stauth.Hasher`) is a function parameter. No property of it is claimed: not that it differs from the plaintext, and not that it is salted.
- The `print` calls and the terminal entry point of create_users.py (lines 20 and 22-28).
- I/O failures while reading or writing `users.yaml`, and races between processes writing it (last writer wins).
