# Blog record validation, modelled in Dafny

This project models the field validators of the blog back end's two record
types in `server/models.py`. An **Author** has a name and a phone number. A
**Post** has a title, content, a category and a summary. Each validator
either accepts a value and returns the value to store, or rejects it with a
validation error that carries a message. The Python code raises `ValueError`;
here the validators return `Result.Ok(value)` or `Result.Err(msg)`, and the
messages are those of `server/models.py`, character for character.

- `pystr.dfy` (module `PyStr`) gives explicit definitions of the three Python
  string operations the validators use: `str.strip()` (`Strip`, built from
  `LStrip` and `RStrip`), `str.isdigit()` (`IsDigit`) and the substring test
  `p in s` (`Contains`). `IsDigit` is a plain definition: non-empty, and every
  character a digit. Strip and `in` are each tied to an independent
  characterisation by lemmas. `StripShape` and `StripPadded` describe strip as
  "whitespace, unpadded middle, whitespace". `ContainsIffOccurs` relates
  `Contains` to a positional definition of a substring.
- `models.dfy` (module `Models`) holds the six validators, the `Author` and
  `Post` records, and a small `AuthorStore` class. The store holds the
  authors table and creates authors one at a time. Its invariant says that
  no two authors share a name, that every name is non-empty, and that every
  phone number the author was given passed validation.
- A field the caller leaves out of the constructor call is never assigned, so
  its validator never runs and the field is stored empty. The model writes
  such a field as `Option<string>` with the value `None`. This applies to the
  author's phone number and to a post's content, category and summary, the
  nullable columns.

The name validator's database lookup ("is there an author with this name?")
becomes an explicit parameter `existing: set<string>`. Inside `AuthorStore`
that parameter is the set of names already stored.

## Model

| member | source | states |
|---|---|---|
| `PyStr.Strip` | server/models.py:27 | `str.strip()`: the result is no longer than the input and has no whitespace at either end; StripShape and StripPadded state the rest and together determine it on every input |
| `PyStr.IsDigit` | server/models.py:28 | `str.isdigit()` over ASCII digits, a plain definition: false on the empty string, otherwise every character is '0'..'9'; its contract adds that a digit string has no whitespace at either end, so strip leaves it unchanged |
| `PyStr.Contains` | server/models.py:50 | `p in s`, a case-sensitive substring test: the empty string occurs in every string, and an occurring phrase is no longer than the text; ContainsIffOccurs ties it to the positional definition of a substring |
| `PyStr.LStrip` | server/models.py:27 | the result is the suffix of the input left after dropping leading whitespace; everything dropped is whitespace; the result does not start with whitespace |
| `PyStr.RStrip` | server/models.py:27 | the result is the prefix of the input left after dropping trailing whitespace; everything dropped is whitespace; the result does not end with whitespace |
| `PyStr.StripShape` | server/models.py:27 | `strip` returns a slice `s[i..j]` of its input with only whitespace before `i` and after `j` (`PaddedAround`), and the slice has no whitespace at either end |
| `PyStr.StripPadded` | server/models.py:27 | for any whitespace `w1`, `w2` and any middle `m` with no whitespace at its ends, `strip(w1 + m + w2) == m`; with StripShape this determines `strip` completely |
| `PyStr.StripIdempotent` | server/models.py:27 | stripping an already stripped string changes nothing |
| `PyStr.StripAllSpace` | server/models.py:27 | an empty or all-whitespace string strips to the empty string |
| `PyStr.ContainsIffOccurs` | server/models.py:50 | `p in s` holds exactly when some index `i` has `s[i..i+|p|] == p`, in both directions |
| `PyStr.ContainsMiddle` | server/models.py:50 | `a + p + b` contains `p`, for all `a`, `p` and `b` |
| `Models.ValidateName` | server/models.py:17-23 | accepts exactly the non-empty names that are not already stored, and returns them unchanged; an empty name fails with "must be provided" (checked first); a stored name fails with "must not already exist" |
| `Models.ValidatePhoneNumber` | server/models.py:26-30 | accepts exactly when the stripped input is ten ASCII digits; the stored value is the stripped input, not the raw one, so every accepted value is ten digits; otherwise it fails with the phone message |
| `Models.PhoneAcceptsPadded` | server/models.py:27-30 | ten digits with any whitespace around them are accepted, and only the ten digits are stored |
| `Models.PhoneIdempotent` | server/models.py:27-30 | validating an accepted phone value again accepts it with the same value |
| `Models.PhoneRejectsBlank` | server/models.py:27-29 | empty and all-whitespace input is rejected, because `isdigit` is false on the empty string |
| `Models.PhoneRejectsMalformed` | server/models.py:27-29 | if the stripped middle has a non-digit or a length other than 10, the input is rejected |
| `Models.AppendAuthor` | server/models.py:18-23 | adding an author whose name is non-empty and not yet stored, and whose phone (if any) is valid, keeps the table's invariant: all names non-empty and distinct, every given phone ten digits |
| `Models.AuthorStore.Names` | server/models.py:20 | the set of names the uniqueness lookup searches holds exactly the names of the stored authors |
| `Models.AuthorStore.CreateAuthor` | server/models.py:11-30 | the name is validated first against the stored names, then the phone number if one is given; the author is created exactly when the name passes and a given phone passes, and is stored with the stripped phone, or with no phone when none was given; on failure the table is unchanged and the message is the first failing field's; the store invariant (non-empty unique names, every given phone valid) is kept |
| `Models.DuplicateAuthorScenario` | server/models.py:17-23 | creating "Jane Doe" with phone "1234567890" succeeds; creating a second "Jane Doe" fails with the uniqueness error |
| `Models.AnyPhraseIn` | server/models.py:50 | `any(phrase in title for phrase in phrases)` holds exactly when some listed phrase occurs in the title |
| `Models.ClickbaitPhrasesListed` | server/models.py:49-50 | over the title validator's phrase list, the `any` test is the same as containing "Won't Believe", "Secret", "Top" or "Guess" |
| `Models.ValidateTitle` | server/models.py:48-52 | accepts exactly the titles containing "Won't Believe", "Secret", "Top" or "Guess" as a case-sensitive substring; returns the title unchanged; otherwise fails with the clickbait message |
| `Models.TitleAcceptsPhrase` | server/models.py:49-52 | any text glued around one of the four phrases is an accepted title |
| `Models.TitleExampleAccepted` | server/models.py:49-52 | "Top 10 Secrets" is accepted unchanged |
| `Models.TitleRejectsPlain` | server/models.py:49-51 | a title shorter than 13 characters without 'S', 'T' or 'G' is rejected; "My Day" and the lower-case "top secret" are examples (the match is case-sensitive) |
| `Models.NotContainsShort` | server/models.py:50 | a phrase longer than the text does not occur in it |
| `Models.NotContainsAbsentChar` | server/models.py:50 | a phrase that holds a character the text lacks does not occur in it |
| `Models.ValidateContent` | server/models.py:55-58 | accepts exactly when the content has at least 250 characters; returns it unchanged; otherwise fails with the content message |
| `Models.ValidateCategory` | server/models.py:61-64 | accepts exactly "Fiction" and "Non-Fiction"; returns the value unchanged; otherwise fails with the category message |
| `Models.ValidateSummary` | server/models.py:67-70 | accepts exactly when the summary has at most 250 characters, the empty summary included; returns it unchanged; otherwise fails with the summary message |
| `Models.BoundaryExamples` | server/models.py:56-70 | content of length 250 passes and of length 249 fails; a summary of length 250 or 0 passes and of length 251 fails; "fiction" and "" are not categories |
| `Models.NewPost` | server/models.py:40-70 | a post is built exactly when the title passes its rule and each of content, category and summary that is given passes its rule (`PostOk`); fields left out are stored empty; the field values are unchanged; a failure carries the message of a field that was given and rejected by its own rule |

## Left out

- The ORM wiring is not modelled. This covers the column declarations, table names, primary keys, `unique` and `nullable` constraints, and the `@validates` hook that calls a validator on attribute assignment (server/models.py:1-16, 35-47). An external library provides them. Two visible effects of the hook are modelled. A field that is never assigned is never validated. The value a validator returns replaces the assigned one, so a phone number is stored stripped.
- The database query `Author.query.filter_by(name=name).first()` (server/models.py:20) is modelled only as membership in a set of names.
- Concurrency is not modelled, including the read-then-write race on name uniqueness between two requests. `AuthorStore` is single-threaded, so it checks and inserts as one step.
- The `created_at` and `updated_at` timestamps are left out, because they come from the database clock. So are the store-assigned `id`s.
- The unused marshmallow import and the `__repr__` methods are left out, because they do not affect validation.
- An explicit `None` passed to a validator is not modelled: every value given is a string, and `None` in the model means "left out". In the original, `None` as a name fails `not name` like the empty string. `None` as a category is not in the list, so it fails with the category message. For the phone number, content, summary and title, `None` raises `AttributeError` or `TypeError` rather than the validator's `ValueError`.
- Leaving out the name or the title is not modelled: `CreateAuthor` and `NewPost` always take them. No validator runs then. Those columns are `NOT NULL`, so the database refuses the insert at commit, and the commit is not part of this model.
- Unicode is approximated. `IsSpace` covers only the ASCII characters that `str.isspace` accepts: space, U+0009..U+000D and U+001C..U+001F. `IsDigitChar` covers only '0'..'9', while Python's `isdigit` also accepts other Unicode digits such as superscripts.
- The order in which fields are validated is not known. The Python constructor validates keyword arguments in the order the caller passes them. `AuthorStore.CreateAuthor` assumes the name comes first, then the phone number. `NewPost` assumes title, content, category, summary. Only which message is reported depends on this order. Whether the record is accepted does not.
