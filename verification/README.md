# budget-platform: accounts, organizations and form validation

This project models the account core of the budget-platform web application:

- **Organizations.** Creating one stores its name with a URL slug. The slug comes from a fixed string pipeline: spaces become hyphens, a set of punctuation is removed, the text is lower-cased and then percent-encoded.
- **Users.** There are lookups by id and by email. Registration hashes the password and, when no organization is given, first creates a "`<first> <last>'s Family`" organization. Users can be deleted by email. Login checks a stored password hash.
- **Invitations.** An invitation is keyed by the invited email and remembers the user who sent it. Invitations can be listed by sender.
- **The three forms (registration, invitation and login).** Each validator is a chain of guards with an early return: the zod schema, then cross-field checks, then store lookups. Each ends in a tagged result, either `success(data)` or `error({ field -> message })`.
- **The error-map layer.** `formError` builds a one-entry map. `mapZodError` folds zod's formatted issue tree into a flat map holding the first message of each field. `cast` and `safeJSONParse` pre-parse values before a schema sees them.

The modules follow the source files:

| module | file | covers |
|---|---|---|
| `Organizations` | organization.dfy | `app/models/organization.server.ts` |
| `Schema` | schema.dfy | `app/lib/schema.ts` |
| `Config` | config.dfy | `app/lib/config.ts` |
| `Users` | users.dfy | `app/models/user.server.ts` |
| `UserInvitations` | invitations.dfy | `app/models/userInvitation.server.ts` |
| `Register` | register.dfy | `app/controllers/register.server.ts` |
| `Login` | login.dfy | `app/controllers/login.server.ts` |
| `InviteUsers` | invite_users.dfy | `app/controllers/invite-users.server.ts` |

Four supporting modules sit underneath:

- `Wrappers` holds `Option` and `Result`.
- `Js` holds the JavaScript values a request body can hold: `undefined`, `null`, numbers, strings, arrays and objects. It also gives a string's `length` in UTF-16 units and the decimal text of a number.
- `Zod` holds the part of zod the forms use: string schemas with `.min`, `.max` and `.refine`, object schemas, zod's default messages, and `ZodError.format()`.
- `Store` holds the database as a class `Db`. The user, organization and invitation tables are sequences of rows, and a counter supplies fresh ids.

The module `SlugExamples` (slug_examples.dfy) works out the slugs of app/models/tests/organization.test.ts.

Some design choices:

- **Unique constraints.** The Prisma client throws when an insert repeats a unique email or when it deletes a missing row. The model returns `Err(UniqueConstraintFailed("email"))` or `Err(RecordNotFound)` instead.
- **`Db.Valid()`.** This predicate keeps ids and emails unique, and keeps every id below the counter. Every method that writes preserves it.
- **Uninterpreted parameters.** The email predicate `validateEmail`, bcrypt's `hash` and `compare`, and `JSON.parse` are function parameters. The operations assume nothing about them. Two lemmas state assumptions as hypotheses: `Users.LoginAfterCreate` assumes that `compare(password, hash(password))` holds and that `hash(password)` is not empty, and `Login.LoginEmailMessageAsWritten` assumes that `validateEmail('foo.com')` is false.
- **Validators are functions of their tables.** Each validator takes the tables it reads as arguments. Each `onSuccess…` handler is a module-level method that takes the `Db` as a parameter and may modify it.

## Model

| member | source | states |
|---|---|---|
| `Organizations.NameToSlug` | app/models/organization.server.ts:11-19 | The slug: spaces become `-`, the characters `'"!@#$%^&*()` are removed, ASCII letters are lower-cased, and the result is percent-encoded as `encodeURIComponent` does (UTF-8 bytes, upper-case hex). |
| `Organizations.CreateOrganization` | app/models/organization.server.ts:5-9 | Appends one organization row whose name is the given name and whose slug is `NameToSlug(name)`, with a fresh id. The other tables do not change, and the table constraints still hold. |
| `Organizations.SlugOfPlainName` | app/models/organization.server.ts:14-18 | A name of ASCII letters, digits and spaces gives a slug of the same length. It is the lower-cased name with each space as `-`, with nothing removed and nothing encoded. |
| `Organizations.NameToSlugConcat` | app/models/organization.server.ts:14-18 | The slug of `a + b` is the slug of `a` followed by the slug of `b`: every step works character by character. |
| `Organizations.SlugOfPunctuation` | app/models/organization.server.ts:16 | A name made only of removed characters has the empty slug. |
| `Organizations.SlugOfChar` | app/models/organization.server.ts:14-18 | The slug of one character: a space gives `-`, a removed character gives nothing, and any other character is lower-cased and encoded. |
| `Organizations.SlugHyphens` | app/models/organization.server.ts:15-16 | The slug holds exactly as many `-` as the name holds spaces plus hyphens: each space becomes a kept hyphen, and percent escapes add none. |
| `Organizations.SlugAlphabet` | app/models/organization.server.ts:15-18 | Every slug character is a lower-case letter, a digit, `-`, `_`, `.`, `~`, `%` or an upper-case hex digit. So no space and none of `'"!@#$^&*()` can appear. |
| `Organizations.SlugLowerCase` | app/models/organization.server.ts:17-18 | Suppose every character of a name is one `encodeURIComponent` leaves alone, or a space, or a removed character. Then its slug has no upper-case letter. |
| `SlugExamples.SlugOfSlash` | app/models/organization.server.ts:18 | `"a/b"` gives `"a%2Fb"`. An ASCII name can therefore get an upper-case hex digit from an escape. |
| `SlugExamples.SlugOfMyOrg` | app/models/tests/organization.test.ts:26 | `"My Org"` gives `"my-org"`. |
| `SlugExamples.SlugOfFamilyName` | app/models/tests/organization.test.ts:27 | `"Michael Helvey's Family"` gives `"michael-helveys-family"`. |
| `SlugExamples.SlugOfPunctuatedName` | app/models/tests/organization.test.ts:28 | `"my!#very%20stupid ^ thing"` gives `"myvery20stupid--thing"`. |
| `Schema.SafeJSONParse` | app/lib/schema.ts:4-18 | A value that is not a string is returned unchanged, and `''` reads as `undefined`. A non-empty string the parser rejects is returned unchanged. A non-empty string the parser accepts becomes the parsed value. |
| `Schema.Cast` | app/lib/schema.ts:22-27 | The schema sees the cast value: where the caster leaves a value alone, the cast schema behaves like the schema. |
| `Schema.DefaultCaster` | app/lib/schema.ts:22-27 | The default caster leaves every non-string alone and turns `''` into `undefined`. |
| `Schema.MapZodErrorSpec` | app/lib/schema.ts:47-66 | The fold over the formatted entries: it has at most one key per entry. |
| `Schema.FormError` | app/lib/schema.ts:35-42 | The error map has exactly one key, the field, and it holds the given message. |
| `Schema.First` | app/lib/schema.ts:58-60 | `list[0]`: a message exactly when the list is non-empty, and then its first element. |
| `Schema.MapZodError` | app/lib/schema.ts:44-67 | The loop over the formatted entries leaves exactly the fold of `MapEntry` over them in the map, starting from an empty map. |
| `Schema.MapZodErrorKeys` | app/lib/schema.ts:47-66 | A key is in the map exactly when some entry with that key is not falsy. The keys are therefore a subset of the entries' keys, and falsy entries add none. |
| `Schema.MapZodErrorValue` | app/lib/schema.ts:57-60 | With distinct keys, a non-falsy entry puts element 0 of its list into the map: of the array itself, or of the node's `_errors`. |
| `Schema.FormatDistinct` | app/lib/schema.ts:47 | The entries of `format()` for an object whose fields have distinct names have distinct keys. |
| `Schema.FormattedErrors` | app/lib/schema.ts:44-67 | After a failed object parse, `_errors` holds the first object-level issue (undefined when there is none). A field is a key exactly when it has issues, and then holds its first issue. No other key appears. |
| `Schema.FormattedHasMessage` | app/lib/schema.ts:44-67 | When a parse has an object-level issue or a field with an issue, the mapped error holds at least one message. |
| `Schema.CastEmptyStringIsMissing` | app/lib/schema.ts:5-8 | `safeJSONParse('')` is `undefined`, so a cast string schema reports it as `Required`. |
| `Schema.CastPassesNonString` | app/lib/schema.ts:17-27 | A value that is not a string reaches the schema unchanged. |
| `Schema.CastKeepsUnparsable` | app/lib/schema.ts:10-14 | A non-empty string the parser rejects is returned unchanged, and a cast string schema accepts it. |
| `Schema.CastUsesParsed` | app/lib/schema.ts:10-27 | A non-empty string the parser accepts reaches the schema as the parsed value. |
| `Config.NameRule` | app/lib/config.ts:9-18 | No issue exactly when the value is a string of `min` to `max` UTF-16 units. A non-string gives one type issue. A string that is too long or too short gives exactly the too-long or the too-short message. |
| `Config.NameField` | app/lib/config.ts:9-18 | No issue exactly when the value is a string of 1 to 50 UTF-16 units. |
| `Config.NameFieldRules` | app/lib/config.ts:3-18 | With the constants 1 and 50: a name of 1..50 units passes. A longer name fails with "Provided value is too long (max 50 character(s))". An empty one fails with "Provided value is too short (min 1 character(s))". |
| `Config.NameMessages` | app/lib/config.ts:11-18 | The two messages with the constants written in. |
| `Users.GetUserById` | app/models/user.server.ts:9-11 | Finds a row exactly when some row has the id, and the row found has that id. |
| `Users.GetUserByEmail` | app/models/user.server.ts:13-15 | Finds a row exactly when some row has the email, and the row found has that email. |
| `Users.GetUserByIdFinds` | app/models/user.server.ts:9-11 | With unique ids, the lookup returns the one row holding the id. |
| `Users.GetUserByEmailFinds` | app/models/user.server.ts:13-15 | With unique emails, the lookup returns the one row holding the email. |
| `Users.UserNameToOrgName` | app/models/user.server.ts:52-54 | The name is the first name, a space, the last name, then `'s Family`. |
| `Users.OrgNameOfRumpel` | app/models/tests/user.test.ts:69 | "Rumpel" and "Stiltskin" give "Rumpel Stiltskin's Family". |
| `Users.CreateUser` | app/models/user.server.ts:31-50 | Without an organization, one named after the user is created first, and the user points at its id. With one, no organization is created and the user points at the given one. The row stores `hash(password)` and the names and email unchanged. An email already in use is refused, and the new organization stays. The user gets the next fresh id after any new organization's, and the id counter moves past every id used. Invitations do not change. |
| `Users.WithoutEmail` | app/models/user.server.ts:56-58 | The rows left are exactly the rows whose email differs. |
| `Users.DeleteUserByEmail` | app/models/user.server.ts:56-58 | Removes the row with the email and returns it. An unknown email gives `RecordNotFound` and changes nothing. The other tables do not change. |
| `Users.WithoutPassword` | app/models/user.server.ts:78 | Every column but the password is copied unchanged. |
| `Users.VerifyLogin` | app/models/user.server.ts:60-81 | A login returns a row holding the email, without its password. That row has a non-empty stored password that `compare` accepts. An email nobody has gives `null`. |
| `Users.VerifyLoginUnknownEmail` | app/models/user.server.ts:60-70 | An email nobody has gives `null`. |
| `Users.VerifyLoginRow` | app/models/user.server.ts:60-81 | For the row holding the email, login gives `null` in three cases: no stored password, an empty one, or a password `compare` rejects. Otherwise it gives that row without its password. |
| `Users.LoginAfterCreate` | app/models/user.server.ts:31-81 | A user stored with `hash(password)` logs in with that password when `compare` accepts it. |
| `UserInvitations.CreateUserInvitation` | app/models/userInvitation.server.ts:6-10 | Appends a row with exactly the given email and sender and a fresh id, keeping every other invitation. An email already invited is refused and nothing changes. |
| `UserInvitations.GetUserInvitationByEmail` | app/models/userInvitation.server.ts:12-14 | Finds a row exactly when some invitation has the email, and the row found has that email. |
| `UserInvitations.GetUserInvitationByEmailFinds` | app/models/userInvitation.server.ts:12-14 | With unique emails, the lookup returns the one invitation for the email. |
| `UserInvitations.GetInvitationsForAccount` | app/models/userInvitation.server.ts:16-18 | The result holds exactly the invitations whose sender is the user: the filter is by sender, not by organization. |
| `UserInvitations.InvitationsAfterInsert` | app/models/userInvitation.server.ts:6-18 | After an insert, the sender's list gains the new invitation at its end, and every other list stays the same. |
| `Register.NameField` | app/controllers/register.server.ts:11-20 | No issue exactly for a string of 1 to 50 units. Too long or too short gives exactly the too-long or the too-short message. |
| `Register.PasswordField` | app/controllers/register.server.ts:22-24 | No issue exactly for a string of at least 8 units. A shorter string gives exactly "Password must be at least 8 characters". |
| `Register.EmailField` | app/controllers/register.server.ts:29 | No issue exactly for a string the email predicate accepts. A rejected string gives exactly "Please enter a valid email". |
| `Register.ParseRegisterForm` | app/controllers/register.server.ts:11-32 | The schema accepts exactly an object with names of 1..50 units, an email the predicate accepts, and two passwords of at least 8 units. The data is the five submitted strings. A non-object fails as a whole. |
| `Register.SameRulesAsConfig` | app/controllers/register.server.ts:7-20 | The form's own constants and name rule are the shared ones. |
| `Register.ValidateRegisterForm` | app/controllers/register.server.ts:38-66 | A success means every schema rule holds, the two passwords are equal and no user has the email. An error always holds at least one key whose value is a message, not `undefined`. |
| `Register.RegisterSucceeds` | app/controllers/register.server.ts:38-66 | Success exactly when every rule holds, the passwords are equal and no user has the email. The data then equals the submitted fields. |
| `Register.RegisterMismatch` | app/controllers/register.server.ts:41-54 | The "Passwords do not match" error on `password` comes exactly when the schema passed and the passwords differ. |
| `Register.RegisterUserExists` | app/controllers/register.server.ts:56-63 | The "A user with this email already exists" error on `email` comes exactly when the schema and confirmation passed and the email is taken. |
| `Register.RegisterSchemaErrors` | app/controllers/register.server.ts:41-45 | A failed schema reports each field's first issue under its name, and only for fields that have one. |
| `Register.RegisterNotAnObject` | app/controllers/register.server.ts:41-45 | A request that is not an object gives only `_errors`, holding zod's object type message. |
| `Register.RegisterNameTooLong` | app/controllers/register.server.ts:11-16 | A first or last name over 50 units gives "Provided value is too long (max 50 character(s))" on that field. |
| `Register.RegisterNameEmpty` | app/controllers/register.server.ts:17-20 | An empty first or last name gives "Provided value is too short (min 1 character(s))" on that field. |
| `Register.RegisterInvalidEmail` | app/controllers/register.server.ts:29 | An email string the predicate rejects gives "Please enter a valid email" on `email`. |
| `Register.RegisterPasswordTooShort` | app/controllers/register.server.ts:22-31 | A password or confirmation under 8 units gives "Password must be at least 8 characters" on that field. |
| `Register.OnSuccessRegisterFormValidation` | app/controllers/register.server.ts:68-72 | Appends one organization named `<first> <last>'s Family` with its slug and a fresh id. Then it stores the user with the hashed password, pointing at that organization. It is refused with the email unique-constraint error exactly when the email is taken, and then the users do not change. The organization takes the next id and the user the one after it. Invitations never change. |
| `Register.ValidatedRegistrationIsNew` | app/controllers/register.server.ts:56-65 | After a success, no user had the email at validation time. |
| `Login.ParseLoginForm` | app/controllers/login.server.ts:6-9 | The schema accepts exactly an object with an accepted email and a string password of any length. The data is those two strings. |
| `Login.ValidateLoginFormWith` | app/controllers/login.server.ts:21-29 | Success exactly under the login rules. An error always holds at least one key whose value is a message, not `undefined`. |
| `Login.ValidateLoginForm` | app/controllers/login.server.ts:6-29 | The form as written, whose email refinement has no message: success exactly under the login rules. |
| `Login.ValidateLoginFormIntended` | app/controllers/login.server.ts:6-29 | The form with "Please enter a valid email" as the email message: success under exactly the same rules. |
| `Login.LoginSucceeds` | app/controllers/login.server.ts:21-29 | Success exactly under the login rules, with the submitted strings as data. No table is consulted. |
| `Login.LoginInvalidEmail` | app/controllers/login.server.ts:7-28 | An email that is missing, not a string, or rejected gives an error keyed `email`. |
| `Login.LoginPasswordNotString` | app/controllers/login.server.ts:8-28 | A missing or non-string password gives zod's type message under `password`. |
| `Login.LoginEmailMessageAsWritten` | app/controllers/login.server.ts:7 | As written, the rejected email `foo.com` is reported as "Invalid input", not as the tests expect. |
| `Login.LoginEmailMessage` | app/controllers/tests/login-controller.test.ts:19-28 | With the message supplied, a rejected email gives "Please enter a valid email" on `email`. |
| `InviteUsers.ParseInvitationForm` | app/controllers/invite-users.server.ts:14-16 | The schema accepts exactly an object whose email is a string the predicate accepts. |
| `InviteUsers.ValidateUserInvitationForm` | app/controllers/invite-users.server.ts:22-48 | A success means the schema rules hold and neither a user nor an invitation holds the email. An error always holds at least one key whose value is a message, not `undefined`. |
| `InviteUsers.InvitationSucceeds` | app/controllers/invite-users.server.ts:22-48 | Success exactly for an accepted email that no user and no invitation holds. The data carries that email. |
| `InviteUsers.InvitationInvalidEmail` | app/controllers/invite-users.server.ts:14-29 | A rejected email gives "Please enter a valid email" on `email`, and the result does not depend on the tables. |
| `InviteUsers.InvitationUserExists` | app/controllers/invite-users.server.ts:31-37 | The existing-user error comes exactly for a valid email a user has, even when an invitation exists too. |
| `InviteUsers.InvitationAlreadySent` | app/controllers/invite-users.server.ts:39-45 | The existing-invitation error comes exactly for a valid email no user has and an invitation holds. |
| `InviteUsers.OnSuccessUserInvitationFormValidation` | app/controllers/invite-users.server.ts:50-56 | Inserts one invitation with the validated email, the session user as sender and a fresh id. An email already invited is refused with the email unique-constraint error, and then neither the invitations nor the counter change. Users and organizations never change. |
| `InviteUsers.ValidatedInvitationIsNew` | app/controllers/invite-users.server.ts:39-48 | After a success, no invitation and no user holds the email, so the insert that follows is never refused. |
| `InviteUsers.GetUserInvitations` | app/controllers/invite-users.server.ts:58-61 | Exactly the invitations the user sent. |

## Left out

- Sessions, cookies, redirects and the route handlers that call these functions are not part of this model, and neither is the UI.
- `Organizations.NameToSlug`: `toLowerCase` is modelled for ASCII letters only. Other letters keep their case and are then percent-encoded.
- `Users.CreateUser`: bcrypt's salt makes real hashes random. Here `hash` is a fixed function parameter, and `compare` is a separate parameter.
- `Users.CreateUser`: `organization.id` is not checked against the organization table. Foreign keys, and cascading on delete, belong to the database schema, which is not part of this model.
- `Register.OnSuccessRegisterFormValidation`: the source passes the whole parsed data, `confirmPassword` included, to `createUser`. The model passes the four columns. How the database client treats the extra field depends on the schema, which is not part of this model.
- `InviteUsers.OnSuccessUserInvitationFormValidation`: the session lookup is a parameter, `currentUser`. The model takes an invitation's `userId` to be nullable, so an absent user gives an invitation without a sender. This is an assumption: the database schema that decides it is not part of this model (app/controllers/invite-users.server.ts:54-55, app/models/userInvitation.server.ts:7-9).
- Timestamps, and columns the code does not use, are not modelled.
- `UserInvitations.InvitationsAfterInsert`: list order is the model's insertion order. The source's `findMany` has no `orderBy`, so the database promises no order. That the new invitation comes last holds in the model only.
- The validators receive the current tables as values. The check-then-insert race between a validation and the insert that follows it is concurrency and is not modelled.
- `validateEmail`, `JSON.parse`, bcrypt and zod's own code are not part of this model. Zod is reduced to the behaviour and default messages the forms reach.
- `Schema.Cast`: modelled as function composition. zod's `preprocess` wrapper type is not modelled.

## Findings

| source | as written | input that shows it | evidently intended | confidence | as-written member | corrected member |
|---|---|---|---|---|---|---|
| app/controllers/login.server.ts:7 | `z.string().refine(validateEmail)` has no message, so a rejected email is reported with zod's default "Invalid input" | `{ email: 'foo.com', password: '1234' }` with `validateEmail('foo.com')` false | "Please enter a valid email", as app/controllers/tests/login-controller.test.ts:27 expects and as the other two forms say | medium, not executed | `Login.LoginEmailMessageAsWritten` | `Login.LoginEmailMessage` |
