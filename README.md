# Sign-up, sign-in and ID-image upload: a Dafny model

This project models the core of a university library application's
gatekeeping code:

- **The image upload component** (`components/ImageUpload.tsx`). It checks the
  chosen file's type and size. It then fetches a short-lived upload
  authorisation `{token, expire, signature}` from the application's endpoint
  and uploads the file with it. It tracks the upload's progress and ends in
  its success or error handler. Either way the file input is cleared, if it is mounted.
- **The server actions** (`lib/actions/auth.ts`). `signUp` asks the rate
  limiter first. It then looks the email up in the users table, hashes the
  password and inserts the new user. `signInWithCredentials` asks the rate
  limiter, then calls the authentication library.
- **The input schemas** (`lib/validation.ts`). These are the field rules for
  sign-up and sign-in requests.

Modules:

| file | module | contents |
|---|---|---|
| `options.dfy` | `Options` | `Option` and `Result` |
| `numerals.dfy` | `Numerals` | decimal digit strings; how a status code is rendered in a message |
| `js_number.dfy` | `JsNumber` | JavaScript's `Number(string)`, used by the schema's `z.coerce.number()` and by `signUp`'s `Number(universityId)` |
| `validation.dfy` | `Validation` | both schemas, as lists of failing fields and validity predicates |
| `image_upload.dfy` | `ImageUpload` | file checks, the authenticator, the progress percentage, the `Uploader` class |
| `auth_actions.dfy` | `AuthActions` | the `UserTable` class with `SignUp`, and `SignInWithCredentials` |

The outside world becomes parameters:

- the authorisation fetch's reply (`AuthReply`);
- the image store's behaviour, meaning its progress events and then a response or a failure (`UploadReply`);
- the rate limiter's verdict (`admitted`);
- the bcrypt hash as a function (`bcrypt`), with its random salt folded into that function;
- whether the database insert succeeds (`insertOk`);
- the authentication library's sign-in reply (`SignInReply`);
- the `x-forwarded-for` header (`forwardedFor`);
- the email-syntax check of the schema library (`isEmail`).

Each operation also returns the calls it makes to these collaborators, in
order (`Effect`, `Call`). This is how ordering is stated, for example "the
store is not read before the limiter admits".

The state-changing code is imperative Dafny:

- The component's state (`isUploading`, `uploadProgress`, `file`) and the
  file input's value are fields of `ImageUpload.Uploader`. Its handlers
  update these fields.
- The users table is a `map` field of `AuthActions.UserTable`, keyed by
  email. `SignUp` updates it.

`HandleFileChange` and `SignUp` are proved equal to specification functions (`HandleSpec`,
`SignUpSpec`). The properties are proved about those functions, either as
their `ensures` or as lemmas.

Behaviours of the code worth noting, all of which the model keeps:

- The rate-limit key is the whole `x-forwarded-for` value, which may list
  several addresses. Because the code uses `||`, an empty header value also falls back
  to `127.0.0.1`.
- Emails are neither lower-cased nor normalised. The table lookup is exact.
- `signUp` does not run the schema. It stores `Number(universityId)`
  whatever that gives.
- `uploadProgress` is overwritten by each progress event. Nothing makes it
  monotone. A progress event whose total is 0 shows NaN or Infinity.
- `z.coerce.number()` accepts a blank university id, because `Number("")`
  is 0 (`Validation.BlankIdAccepted`).
- A file refused by the type or size check returns before the `try`. Its
  `finally` does not run, so the input value is not cleared.

## Model

| member | source | states |
|---|---|---|
| `ImageUpload.CheckFile` | components/ImageUpload.tsx:66-83 | the type is checked first: an unlisted MIME type is "Invalid file type" whatever the size; a listed type larger than 5·1024·1024 bytes is "File too large"; a listed type of at most 5 242 880 bytes (that exact size included) passes |
| `ImageUpload.Authenticate` | components/ImageUpload.tsx:15-29 | succeeds exactly for a 2xx response with a readable body, returning its token, expire and signature unchanged; every failure message starts with "Authentication request failed:"; a rejected fetch or an unreadable 2xx body gives that prefix followed by the thrown error's message, or "Unknown error" when it is not an `Error`; a non-2xx status gives "Authentication request failed:Request failed <status>: <body text>" |
| `ImageUpload.FailureMessageNamesStatus` | components/ImageUpload.tsx:18-27 | the status can be read back from a failed-status message, and the message ends with the response body text |
| `Numerals.NatToDecimal` | components/ImageUpload.tsx:20 | the rendered status is a non-empty digit string with no leading zero |
| `Numerals.DecimalRoundTrip` | components/ImageUpload.tsx:20 | reading the rendered status back gives the status |
| `Numerals.CanonicalDigitsRoundTrip` | components/ImageUpload.tsx:20 | every digit string without a leading zero is the rendering of its value, so the rendering is one-to-one |
| `ImageUpload.RoundedPercent` | components/ImageUpload.tsx:102-104 | for a positive total, the percentage is the integer nearest to loaded·100/total, with halves rounded up (`Math.round`) |
| `ImageUpload.PercentWithinRange` | components/ImageUpload.tsx:102-104 | when loaded ≤ total, the percentage is between 0 and 100 |
| `ImageUpload.PercentMonotone` | components/ImageUpload.tsx:102-104 | more bytes loaded of the same total never give a smaller percentage |
| `ImageUpload.ProgressPercent` | components/ImageUpload.tsx:101-106 | a positive total gives exactly the half-up rounded percentage `RoundedPercent(loaded, total)`; a zero total gives NaN when nothing was loaded and Infinity otherwise |
| `ImageUpload.ProgressShownWithinRange` | components/ImageUpload.tsx:101-106 | after a series of progress events, the shown progress is the last event's percentage, lies in [0, 100] when there is at least one event and every event has a positive total and loaded ≤ total, and no other field has changed |
| `ImageUpload.HandleSpec` | components/ImageUpload.tsx:62-120 | no file, or a rejected file, changes nothing and contacts nothing; past validation the authoriser is contacted first, the upload is over, and the input is cleared when mounted and keeps its value otherwise; an upload starts only after the authoriser succeeded, with exactly its signature, token and expire, the file's name and the public key; success records and reports the store's path, with progress 100; failure resets progress to 0, keeps the recorded file and never notifies the parent; an authoriser failure ends in a failure carrying the authenticator's error, after the fetch alone; a grant always starts the upload right after the fetch; the upload's result then decides: success with the store's path, or a failure whose message is the thrown error's message or "Upload failed", after exactly the fetch and the upload |
| `ImageUpload.OutcomeIndependentOfPriorState` | components/ImageUpload.tsx:62-120 | choosing the same valid file again with the same replies gives the same outcome and the same calls, whatever an earlier attempt left behind |
| `ImageUpload.Uploader.constructor` | components/ImageUpload.tsx:36-39 | a mounted component starts with no file, not uploading, progress 0 |
| `ImageUpload.Uploader.OnError` | components/ImageUpload.tsx:41-49 | sets `isUploading` to false and progress to 0, and changes nothing else |
| `ImageUpload.Uploader.OnSuccess` | components/ImageUpload.tsx:51-60 | records the response's path, hands that same path to the parent, sets `isUploading` to false and progress to 100, and changes nothing else |
| `ImageUpload.Uploader.OnProgress` | components/ImageUpload.tsx:101-106 | overwrites the progress with the event's percentage, and changes nothing else |
| `ImageUpload.Uploader.HandleFileChange` | components/ImageUpload.tsx:62-120 | the outcome, the new state and the outward calls are exactly those of `HandleSpec` from the old state |
| `Validation.Utf16LengthBounds` | lib/validation.ts:4-8 | a string's JavaScript length is between its number of code points and twice that, and equals it when no code point is above U+FFFF |
| `Validation.SignUpIssues` | lib/validation.ts:3-9 | a field is reported exactly when it breaks its rule (full name of length at least 2, email syntax, finite `Number` of the university id, non-empty card, password of length at least 6) |
| `Validation.SignInIssues` | lib/validation.ts:11-14 | the email is reported exactly when its syntax fails, and the password exactly when it is shorter than 6; nothing else is reported |
| `Validation.SignUpValidIff` | lib/validation.ts:3-9 | a sign-up request is valid if and only if all five field rules hold |
| `Validation.SignInValidIff` | lib/validation.ts:11-14 | a sign-in request is valid if and only if the email passes and the password has length at least 6 |
| `Validation.SignUpProjectsToSignIn` | lib/validation.ts:3-14 | the email and password of a valid sign-up request form a valid sign-in request, with the same email check |
| `Validation.DigitIdAccepted` | lib/validation.ts:6 | a university id made of decimal digits (such as "12345") is accepted |
| `Validation.NonNumericIdRefused` | lib/validation.ts:6 | a university id whose first non-blank character cannot start a number (such as "abc") is refused |
| `Validation.BlankIdAccepted` | lib/validation.ts:6 | an empty or blank university id coerces to 0 and is accepted |
| `JsNumber.DigitsConvert` | lib/actions/auth.ts:36 | `Number` of a decimal digit string is the finite value it denotes |
| `JsNumber.StringToNumber` | lib/actions/auth.ts:36 | `Number(s)` by the StringNumericLiteral grammar of ECMAScript: a blank string is 0, `Infinity`, `+Infinity` and `-Infinity` are the only infinite results, a `0x`/`0o`/`0b` literal is NaN or a non-negative value, and a negative value needs a leading `-` |
| `JsNumber.WhiteSpaceIgnored` | lib/validation.ts:6 | `Number(s)` equals `Number` of `s` with its surrounding white space removed, for every string |
| `JsNumber.NonNumericIsNaN` | lib/validation.ts:6 | `Number` of a string whose first non-blank character cannot start a numeric literal is NaN |
| `JsNumber.BlankIsZero` | lib/validation.ts:6 | `Number` of an empty or white-space-only string is 0 |
| `AuthActions.ClientKey` | lib/actions/auth.ts:14 | the limiter key is the `x-forwarded-for` value when present and non-empty, and "127.0.0.1" otherwise; it is never empty |
| `AuthActions.NewRecord` | lib/actions/auth.ts:32-38 | the inserted row keeps the email, holds the given hash as its password, holds `Number(universityId)` as its university id, and keeps the full name and the university card unchanged |
| `AuthActions.SignUpSpec` | lib/actions/auth.ts:12-46 | the limiter is asked first, with the client key; if it refuses, the answer is a redirect to "/too-fast", with no other call and no change; a taken email gives "User already exists", with only the lookup made and the table unchanged; success happens exactly when the limiter admits, the email is new and the insert succeeds, and then the new record is stored under the email; for a new email the calls are exactly the limiter, the lookup, the 10-round hash and the insert of the new record, in that order, whether or not the insert succeeds; a failed insert gives "Internal server error"; any outcome other than success leaves the table unchanged |
| `AuthActions.SignUpLimiterFirst` | lib/actions/auth.ts:14-19 | the limiter is asked exactly once, as the first call, and every later call (lookup, hash, insert) happens only when it admitted |
| `AuthActions.SignUpHashesOnlyNewEmail` | lib/actions/auth.ts:15-29 | the password is hashed, with 10 rounds, only after the limiter admitted and only for an email not yet in the table |
| `AuthActions.SignUpInsertsHash` | lib/actions/auth.ts:29-38 | the insert comes right after the hash and stores `hash(password, 10)`, not the plaintext |
| `AuthActions.SignUpErrorMessages` | lib/actions/auth.ts:25-45 | a refused sign-up answers "User already exists" or "Internal server error" and nothing else |
| `AuthActions.SignUpAddsOneRecord` | lib/actions/auth.ts:32-41 | a successful sign-up adds exactly one key, the request's email, keeps every other record, and stores the hashed password |
| `AuthActions.SignUpKeepsKeying` | lib/actions/auth.ts:19-41 | if every record is stored under its own email before sign-up, that still holds after it |
| `AuthActions.SecondSignUpRefused` | lib/actions/auth.ts:19-27 | after a successful sign-up, a second sign-up with the same email is refused with "User already exists" and changes nothing |
| `AuthActions.UserTable.SignUp` | lib/actions/auth.ts:12-46 | the response, the new table and the calls made are exactly those of `SignUpSpec` on the old table; the table stays keyed by email (`Valid`), which makes the key test the source's email query |
| `AuthActions.SignInWithCredentials` | lib/actions/auth.ts:48-72 | a refusal by the limiter redirects to "/too-fast" before the sign-in call is made; otherwise the sign-in call gets the email and password; a thrown error gives "Internal server error"; a non-empty `error` from the sign-in call is passed back; success happens exactly when the sign-in call resolves without such an error |

## Left out

- Rendering (`components/ImageUpload.tsx:121-187`) is left out. So are the `toast` notices, `console` logging and the image preview: they are presentation. The titles of the rejection notices are not modelled; the model keeps which rejection occurred.
- The network and the store are left out. `fetch`, the image store's `upload`, the database's `select`/`insert` and the authentication library's `signIn` appear only through their replies.
- A rejecting `response.text()` on a non-2xx status is not modelled: the model's reply always carries the status text. In the code that rejection is caught by the authenticator, which then fails with "Authentication request failed:" followed by the rejection's message (or "Unknown error" when it is not an `Error`).
- A grant whose JSON body lacks `token`, `expire` or `signature` cannot be expressed: the model's grant always holds all three. In the code such a body does not fail authorisation. Destructuring gives `undefined` for the missing fields, `upload` is called with them, and any resulting error comes from the upload without the "Authentication request failed:" prefix. Only a `null` body makes the authenticator throw.
- A `db.select` or `hash` call that throws is not modelled. Both run outside the `try` in `signUp`, so the action itself would reject. The model assumes both complete.
- An `onFileChange` callback that throws inside the success handler is not modelled.
- React's asynchronous state updates and re-renders are not modelled. The handler runs as one step, with the progress events delivered in order between the start and the end of the upload.
- The disabled input while uploading is not modelled. It is a rendering attribute, and the handler does not check it.
- The rate limiter's window, counts and behaviour under concurrent requests are left out. Its implementation is not part of this model, and only its verdict is used.
- Concurrent duplicate sign-ups are left out. The database's uniqueness constraint and its default columns (id, timestamps) are not part of this model.
- The authentication library's credential check is not part of this model. This includes whether a wrong password and an unknown email give the same answer.
- Email syntax is the schema library's own check. Here it is the parameter `isEmail`.
- The schema's error messages are not modelled; the model keeps which fields fail.
- The type that declares `signUp`'s parameters is not part of this model. `universityId` is modelled as the submitted string.
- Floating point is not modelled. `Number` gives exact reals, so these are absent: rounding to the nearest double, overflow of huge literals to Infinity, and negative zero.
- `RoundedPercent`: rounds the exact quotient rather than a double. Its bounds lemmas assume loaded ≤ total, which the image store's events are not shown to guarantee.
- `lib/workflow.ts`, `app/layout.tsx` and `app/(root)/page.tsx` are left out. They are client set-up, an empty email stub, and page layout.
