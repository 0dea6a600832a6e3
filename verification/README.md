# College voting system: the vote-integrity workflow of `app.py`

This project models, in Dafny, the part of the Flask election application that decides who may vote and what gets counted:

- the helpers `normalize_roll`, `valid_password` and `allowed_file`;
- the student routes `register`, `verify`, `login`, `logout` and `vote`;
- the admin routes `delete_student` and `admin_results`.

Flask, SQLAlchemy, mail and pandas are removed. One immutable `State` record holds everything the routes read or write:

- the eligibility roster (roll number → email, branch, year);
- the `Student` table, keyed by roll number;
- the next primary key;
- the pending registration the session carries between `register` and `verify`;
- the logged-in voter;
- whether an admin is logged in;
- the `Vote` table, keyed by roll number;
- the candidate registry, in insertion order.

Each route is a pure function from a state and the form fields it reads to a `Reply`: the route's outcome (`Ok` or one `Error` variant) and the state it leaves. The `unique=True` constraints on `Student.roll_number` and `Vote.roll_number` become map keys. An insert on an existing key is a failing outcome with the state unchanged.

Modules:

- `Wrappers`: `Option` and `Result`.
- `Text`: the string helpers. This includes Python's `str.strip`, `upper` and `lower` on ASCII, `rsplit(".", 1)`, and `str(int)` for the one-time code.
- `Records`: the rows, the state, the error outcomes and the invariant `Valid`.
- `Workflow`: `register`, `verify`, `login`, `logout`, `vote` and `delete_student`.
- `Tally`: `admin_results`.
- `History`: a request dispatcher, runs of many requests, the exactly-once ballot theorem and the one-student walk-through.

Where a reader might expect more than the code does, the model follows the code:

- **Summed counts.** One might expect the counts for one office never to add up to more than the ballots cast. The code counts, for each candidate row, the ballots whose field equals that row's name. Two candidate rows with the same name for one office therefore both receive every such ballot. The bound is proved only when candidate names are distinct (`Tally.TotalAtMostBallots`). `Tally.DuplicateNamesCountTwice` exhibits a total of 2 from one ballot.
- **Order of registration checks.** `register` checks for empty fields and a weak password before it looks at the roster. A weak password from a non-eligible roll number is therefore reported as a weak password, not as "not eligible".
- **Which e-mail is used.** The roster row's e-mail is never used. The code is sent to, and the account stores, the address typed into the form.
- **Deleting a logged-in student.** `delete_student` removes the account only. A session already bound to that roll number can still cast a ballot, because `vote` checks the session, not the accounts table.

## Model

| member | source | states |
|---|---|---|
| `Text.NormalizeRoll` | app.py:104-105 | a missing value gives ""; the result has no whitespace at either end and no lower-case ASCII letter, and is the upper-cased slice of the input left after whitespace margins are removed |
| `Text.NormalizeRollOfSlice` | app.py:104-105 | any trimmed slice with whitespace margins determines the normal form uniquely: it is that slice upper-cased |
| `Text.NormalizeRollFixed` | app.py:104-105 | a roll number with no whitespace at either end and no lower-case letter is its own normal form |
| `Text.NormalizeRollIdempotent` | app.py:104-105 | normalising a normalised roll number changes nothing |
| `Text.NormalFormsAreFixed` | app.py:59 | a roster key that is not its own normal form can never be matched by any normalised input |
| `Text.StripUnique` | app.py:105 | `strip()` returns the unique slice with whitespace margins and no whitespace at its ends |
| `Text.StripTrimmed` | app.py:164 | stripping a string without whitespace at its ends returns it unchanged |
| `Text.NormalizeEmail` | app.py:119 | a missing e-mail gives ""; the result has no whitespace at either end and no upper-case ASCII letter, and is the lower-cased slice of the input left after whitespace margins are removed |
| `Text.HasUpper` | app.py:108 | `re.search("[A-Z]", pw)` succeeds exactly when some character of `pw` is in 'A'..'Z' |
| `Text.ValidPassword` | app.py:107-108 | holds exactly when the password has at least 6 characters and one of them is in 'A'..'Z' |
| `Text.LastIndexOf` | app.py:41 | the position `rsplit(".", 1)` splits at: absent exactly when there is no '.', otherwise a '.' with none after it |
| `Text.AllowedFileSplit` | app.py:38-41 | for an extension without '.', `AllowedFile(stem.ext)` holds exactly when the lower-cased extension is png, jpg, jpeg or gif |
| `Text.AllowedFileNeedsDot` | app.py:40-41 | a file name without '.' is never allowed |
| `Text.Decimal` | app.py:144 | `str(n)` is a non-empty string of decimal digits |
| `Text.DecimalRoundTrip` | app.py:144 | reading back the digits of `str(n)` gives `n` |
| `Text.DecimalInjective` | app.py:144 | distinct numbers give distinct codes, so only the drawn number's code matches |
| `Text.OtpCode` | app.py:144 | the code drawn from 1000..9999 is exactly four digits whose value is the drawn number |
| `Text.DigitsTrimmed` | app.py:164 | a string of digits has no whitespace at its ends, so `strip()` keeps a typed code intact |
| `Records.InitialValid` | app.py:64-79 | empty tables with an empty session satisfy the invariant |
| `Records.ValidBallots` | app.py:75 | under the invariant no two ballots carry the same roll number and every ballot's roll number is on the roster |
| `Workflow.BeginRegistration` | app.py:116-145 | each refusal (missing field, weak password, not eligible, already registered) holds exactly when its check is the first to fail, and a refusal leaves the state unchanged; success happens exactly when all checks pass, and stores only a pending record with the roster's branch and year, the password's hash and a four-digit code whose value is the drawn number |
| `Workflow.BeginRegistrationKeepsValid` | app.py:128-141 | `register` keeps the invariant: a pending record is for an eligible roll number |
| `Workflow.ConfirmVerification` | app.py:162-182 | succeeds exactly when a pending record exists, the stripped entered code equals its code and the roll number has no account; no pending record or a wrong code changes nothing; a roll number with an account already hits the unique constraint and changes nothing; a match adds exactly one verified account, built from the pending fields under the next id, clears the pending record, and leaves every other field, the admin flag included, unchanged |
| `Workflow.ConfirmVerificationKeepsValid` | app.py:166-177 | `verify` keeps the invariant |
| `Workflow.AddAccountKeepsValid` | app.py:64-71 | inserting the pending account under a fresh id keeps account ids unique and accounts tied to their roster rows |
| `Workflow.VerifyStoredCode` | app.py:164-165 | entering the stored code verifies a pending registration whose roll number has no account |
| `Workflow.WrongCodeIsRetryable` | app.py:180-182 | any number of wrong codes leave the state, including the pending record, unchanged |
| `Workflow.RegisterThenVerify` | app.py:137-175 | a successful registration followed by its code creates exactly one new account, verified, with the form's e-mail, the password's hash and the roster's branch and year |
| `Workflow.Authenticate` | app.py:187-198 | login succeeds exactly when the normalised roll number has a verified account and the password check passes; success binds the session to that account and changes nothing else; failure changes nothing; a missing password on a verified account is a server fault |
| `Workflow.AuthenticateKeepsValid` | app.py:191-194 | `login` keeps the invariant: a session is only opened for an account's roll number |
| `Workflow.Logout` | app.py:201-206 | the voter session is cleared and every other field is unchanged |
| `Workflow.LogoutEndsVoting` | app.py:201-213 | after logout, `vote` is refused as needing a login, whatever is submitted, with nothing changed |
| `Workflow.CastBallot` | app.py:210-234 | refused without a session, refused with the state unchanged when the session's roll number already has a ballot, refused as incomplete when a selection is missing or empty; otherwise it succeeds and exactly one ballot, keyed by the session's roll number and holding the four selections, is added, and no other ballot or field changes |
| `Workflow.CastBallotKeepsValid` | app.py:226-234 | `vote` keeps the invariant, so ballots stay one per roster roll number |
| `Workflow.DeleteAccount` | app.py:291-297 | refused without an admin; an unknown id is not found; an existing id succeeds and exactly the accounts with that id are removed and every other account is kept unchanged; ballots and the session never change; the invariant is kept |
| `Workflow.DeleteRemovesExactlyOne` | app.py:295-297 | under the invariant, deleting an account's id removes exactly that account |
| `Tally.ColumnsAreFields` | app.py:350 | `pos.lower().replace(" ", "_")` names, for each of the four offices, the `Vote` column that holds that office's selection |
| `Tally.OfPosition` | app.py:347 | the candidates for an office are exactly the registry's candidates with that position string, never more |
| `Tally.OfPositionAppend` | app.py:347 | filtering distributes over concatenation, so registry order is kept |
| `Tally.ComputeResults` | app.py:340-353 | refused without an admin; otherwise exactly the four offices in order, each listing the candidates with exactly that position, in registry order, each with the number of ballots whose field for the office equals the candidate's name; the state never changes |
| `Tally.EntriesCount` | app.py:348-351 | counting through the computed column equals counting the office's field directly |
| `Tally.OtherPositionsIgnored` | app.py:345-347 | adding a candidate whose position is not one of the four offices changes no result |
| `Tally.CountAfterInsert` | app.py:350 | one more ballot raises the count of the name it holds for an office by one and leaves every other count as it was |
| `Tally.CastBallotCounts` | app.py:226-234 | a successful `vote` raises exactly the counts of the names on the new ballot, by one each |
| `Tally.SumOfDistinct` | app.py:349-351 | for distinct names, the summed counts are the number of ballots naming any of them |
| `Tally.TotalOfEntries` | app.py:349-351 | an office's total is the sum of its names' counts |
| `Tally.TotalAtMostBallots` | app.py:344-352 | with distinct candidate names, an office's counts add up to at most the number of ballots |
| `Tally.DuplicateNamesCountTwice` | app.py:347-351 | two candidates with one name for one office both count the same ballot: a total of 2 from 1 ballot |
| `History.Step` | app.py:115-353 | any route keeps every ballot and the roster unchanged, and adds at most the one ballot it records, for a roll number that had none |
| `History.StepKeepsValid` | app.py:115-297 | every modelled route keeps the invariant |
| `History.RunExtends` | app.py:214-234 | over any run of requests, ballots are kept, each recorded roll number is new and recorded once, and every new ballot was recorded by some step |
| `History.ExactlyOnce` | app.py:214-234 | over any history, no roll number's ballot is recorded twice, none that already had one is recorded again, every earlier ballot survives unchanged, and every new ballot comes from a recorded `vote` |
| `History.RunKeepsValid` | app.py:115-297 | the invariant holds after any history starting from a valid state |
| `History.RunKeepsRoster` | app.py:44-61 | no request changes the roster |
| `History.BallotsAreEligible` | app.py:128-131 | from a fresh deployment, whatever is requested, every ballot belongs to a distinct roster roll number |
| `History.WalkthroughRegistration` | app.py:116-182 | registering CS101 with "Abcdef" and confirming the code leaves a verified CS101 account holding the password's hash |
| `History.WalkthroughLogin` | app.py:187-198 | logging in as "cs101 " with the registered password opens a session for CS101 |
| `History.WalkthroughCasting` | app.py:210-236 | voting X/Y/Z/W as CS101 records one ballot; voting again is refused as already voted |
| `History.WalkthroughResults` | app.py:340-352 | with that ballot cast, X is listed for President with one vote |
| `History.Walkthrough` | app.py:115-353 | the whole one-student walk-through, register to results, succeeds step by step with the second vote refused |

## Left out

- Flask routing, templates, GET renders, `flash` messages and redirects: each route's outcome is an `Error` variant or `Ok` instead.
- The SQLAlchemy/SQLite layer: tables are maps keyed by their unique column. Primary keys come from a counter, so SQLite's reuse of the largest deleted id is not modelled.
- Mail delivery and its fallback disclosure of the code (app.py:148-156): I/O with no effect on the state.
- `generate_password_hash` and `check_password_hash`: foreign library calls, passed in as an abstract function and predicate. `hash` is a fixed function of the password: the random salt `generate_password_hash` draws on each call is not represented.
- `random.randint(1000, 9999)`: the drawn number is a parameter of `register`, constrained to 1000..9999.
- Loading the roster from the spreadsheet with pandas (app.py:44-61): the roster is a given map with normalised keys. Duplicate roster rows collapse to one entry; the code reads the first one.
- `manage_candidates` and `delete_candidate` (app.py:302-336): candidate edits are not requests. The registry is a given sequence, fixed during a run, although the program inserts and deletes `Candidate` rows at run time. Their image handling (`secure_filename`, saving and removing files) is filesystem work; only `allowed_file` is modelled.
- Admin bootstrap, `admin_login` and `admin_logout`: configuration and hash plumbing. A boolean `admin` flag stands for the admin session gate.
- Concurrency: the model is sequential. Check-then-insert races between requests are not represented, and uniqueness comes from map keys.
- Character handling is ASCII only. Python's `strip`, `upper` and `lower` also act on non-ASCII whitespace and letters; those are not modelled.
- One browser session: the model holds one pending registration and one logged-in voter rather than a session per client.
