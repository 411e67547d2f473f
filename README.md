# Task-list API: a Dafny model

This project models the logic of a small Symfony task-list API and proves
properties of it.

Users register with an email and password and log in through a JSON login
authenticator that issues a token. They then create, list (ten to a page,
newest first), show, update and delete their own tasks. The errors the
controllers and the authenticator build are JSON envelopes
`{statusCode, error, message | messages}`. Two errors are not: an unknown
task id is a 404 built by the framework's exception listener, and a value
that cannot be passed to a typed parameter raises a TypeError, which is a
500.

The model has seven modules, one per file:

- `Php` (php.dfy): the PHP value semantics the code relies on.
  - Decoded JSON values, and array lookup with `??`.
  - `empty()`, the `(string)`, `(int)` and `(bool)` casts, and ASCII `strtolower`, `strtoupper` and `ucfirst`.
  - Coercive passing of a value to a `string`, `?string` or `bool` parameter. The files do not declare `strict_types`, so null or an array raises a TypeError, which is answered 500.
- `BaseEntity` (base_entity.dfy): `convertToBool`, `convertValue` and the setter name `fill` looks for.
- `TaskEntity` (task.dfy):
  - the Task entity as a class with its fields, getters, setters and lifecycle hooks;
  - its validation constraints as a predicate, and the list of violations the validator reports;
  - `BaseEntity::fill` over a Task, as a loop proved against a function on the field values, with a static setter table in place of reflection.
- `TaskApi` (task_controller.dfy): the task controller.
  - `list` and `show` are functions of the store. The store is a map from id to field values, with a generated-id counter.
  - `create`, `update` and `delete` are methods of a controller class that holds the store. Each is proved equal to a function of the old store (`CreateSpec`, `UpdateSpec`, `DeleteSpec`), and the properties are lemmas about those functions.
- `ErrorResponses` (error_response.dfy): the five error envelope builders.
- `AuthApi` (auth_controller.dfy): `register` over a store of users keyed by email. The user validator and the password hasher are function parameters. The method is proved equal to `RegisterSpec`.
- `Security` (json_login_authenticator.dfy): `supports`, `authenticate`, the failure and success handlers, `start`, and the login flow that composes them. The credential check and the JWT issuer are function parameters.

The clock reading, the validator of users, the password hasher, the credential check and the JWT issuer are parameters of the operations that use them.

## Model

| member | source | states |
|---|---|---|
| Php.Lookup | src/Controller/TaskController.php:96-98 | `$data[$key]` is unset exactly when no pair has that key; otherwise it is the value of the last pair with that key |
| Php.Coalesce | src/Controller/TaskController.php:96-98 | `$a[$key] ?? $default`: the value under the key, or the default when the key is unset or null |
| Php.ArrayEntries | src/Entity/BaseEntity.php:17 | the PHP array a pair sequence stands for: its keys are distinct and are those of KeysInOrder, in that order, and each entry holds the last value, which is what `$a[$key]` reads |
| Php.KeysInOrder | src/Entity/BaseEntity.php:17 | the keys each once, and exactly the keys of the pairs |
| Php.KeysInFirstOccurrenceOrder | src/Entity/BaseEntity.php:17 | a key comes before another in KeysInOrder only if it occurs in the pairs before every occurrence of the other: the keys are in the order of their first occurrence |
| Php.ArrayEntriesInFirstOccurrenceOrder | src/Entity/BaseEntity.php:17 | the entries of the array come in the order in which their keys first occur in the pairs, which is the order fill visits them in |
| Php.ArrayEntriesLookup | src/Entity/BaseEntity.php:17 | reading any key gives the same result on the pairs and on the array they stand for |
| Php.ArrayEntriesOfDistinct | src/Entity/BaseEntity.php:17 | pairs whose keys are already distinct are that array unchanged |
| Php.Lower | src/Entity/BaseEntity.php:86 | strtolower keeps the length and lower-cases each character on its own |
| Php.Upper | src/Security/JsonLoginAuthenticator.php:28 | strtoupper keeps the length and upper-cases each character on its own |
| Php.LowerAppend | src/Entity/BaseEntity.php:18 | lower-casing distributes over concatenation |
| Php.LowerOfUcfirst | src/Entity/BaseEntity.php:18 | ucfirst makes no difference once the name is lower-cased |
| Php.Digits | src/Entity/BaseEntity.php:67 | the decimal digits of a natural number form a non-empty string of digits |
| Php.DigitPrefix | src/Entity/BaseEntity.php:65 | the digit run `(int)` reads is a prefix of the string, holds only digits, and is the longest such prefix |
| Php.DigitPrefixOfDigits | src/Entity/BaseEntity.php:65 | a string of digits is read whole |
| Php.DigitsValueOfDigits | src/Entity/BaseEntity.php:65-67 | reading back the digits of n gives n |
| Php.IntOfDecimalString | src/Controller/TaskController.php:38 | `(int)(string)$i == $i` for every integer |
| Php.DecimalStringChars | src/Entity/BaseEntity.php:67 | `(string)$i` is digits after an optional leading minus |
| Php.IntOfString | src/Controller/TaskController.php:38 | `(int)` of a string: leading whitespace, an optional sign, then the longest run of digits; anything else reads as 0 |
| Php.StringCast | src/Entity/BaseEntity.php:67 | `(string)`: null and false give "", true gives "1", an integer its decimal string, an array "Array" |
| Php.IntCast | src/Entity/BaseEntity.php:65 | `(int)`: null and false give 0, true gives 1, a string is read as above, an array gives 0 when empty and 1 otherwise |
| Php.BoolCast | src/Entity/BaseEntity.php:91 | `(bool)`: false for null, false, 0, "", "0" and the empty array, true otherwise |
| Php.StringParam | src/Controller/TaskController.php:96 | passing a value to a `string` parameter: scalars are cast, null and arrays raise a TypeError |
| Php.NullableStringParam | src/Controller/TaskController.php:97 | passing a value to a `?string` parameter: null passes as null, scalars are cast, arrays raise a TypeError |
| Php.BoolParam | src/Controller/TaskController.php:98 | passing a value to a `bool` parameter: scalars are cast, null and arrays raise a TypeError |
| Php.EmptyIsNotTruthy | src/Security/JsonLoginAuthenticator.php:42 | `empty($v)` holds exactly when `(bool)$v` is false |
| BaseEntity.ConvertToBool | src/Entity/BaseEntity.php:79-95 | convertToBool: a boolean as it is, a string by the lower-cased word list "true", "1", "yes", "on", an integer by being non-zero, anything else false |
| BaseEntity.ConvertValue | src/Entity/BaseEntity.php:46-71 | convertValue: no type or a union type passes the value on; null through a nullable type stays null; otherwise bool, int, string and array types convert and a class type passes the value on |
| BaseEntity.SetterName | src/Entity/BaseEntity.php:18 | the method fill looks for: "set" followed by the field with its first letter upper-cased |
| BaseEntity.ConvertToBoolIdempotent | src/Entity/BaseEntity.php:79-95 | a boolean comes back unchanged, so converting twice is converting once |
| BaseEntity.ConvertToBoolOfNonStrings | src/Entity/BaseEntity.php:90-94 | on a non-string non-array the result is PHP's `(bool)` cast (non-zero integers are true); null and every array give false |
| BaseEntity.ConvertToBoolIgnoresCase | src/Entity/BaseEntity.php:85-88 | two strings equal after lower-casing convert alike |
| BaseEntity.LowerOfDecimal | src/Entity/BaseEntity.php:86 | lower-casing leaves a decimal string as it is |
| BaseEntity.ConvertToBoolOfDecimal | src/Entity/BaseEntity.php:85-94 | the string branch comes first: an integer's decimal string is true only for 1, while the integer itself is true for every non-zero value |
| BaseEntity.ConvertToBoolExamples | src/Entity/BaseEntity.php:85-88 | "2", "0" and "" are false; "TRUE", "Yes" and "on" are true |
| BaseEntity.ConvertNull | src/Entity/BaseEntity.php:59-70 | null through a nullable type stays null; through a non-nullable bool, string, int or array type it becomes false, "", 0 or [null] |
| BaseEntity.ConvertPassesThrough | src/Entity/BaseEntity.php:48-54 | with no type, a union type or a class type, the value is returned unchanged |
| BaseEntity.ConvertedIsAdmitted | src/Entity/BaseEntity.php:63-70 | for bool, int, string and array types, the converted value has the declared type |
| BaseEntity.ConvertKeepsAdmitted | src/Entity/BaseEntity.php:46-71 | a value that already has the declared type is left unchanged |
| BaseEntity.ConvertValueIdempotent | src/Entity/BaseEntity.php:46-71 | converting twice is converting once |
| BaseEntity.ConvertToArray | src/Entity/BaseEntity.php:68 | an array type passes arrays through and wraps any other value v as [v] |
| BaseEntity.ConvertStringThenInt | src/Entity/BaseEntity.php:65-67 | a string type stringifies an integer, and an int type reads it back as the same integer |
| BaseEntity.SetterNameLower | src/Entity/BaseEntity.php:18-20 | the lower-cased setter name is "set" followed by the lower-cased field, so the lookup ignores the field's case |
| TaskEntity.NewTask | src/Entity/Task.php:19-52 | the field values of a new Task: all null except isDone, which is false |
| TaskEntity.Valid | src/Entity/Task.php:22-41 | the declared constraints: title set with length 1..255, description null or at most 1000 characters, isDone set |
| TaskEntity.Violations | src/Entity/Task.php:22-41 | the violations the validator reports, property by property in declaration order, each property's constraints in declaration order |
| TaskEntity.FindSetter | src/Entity/BaseEntity.php:18-20 | `method_exists` on Task for the field's setter name, ignoring case, with the method found |
| TaskEntity.Apply | src/Entity/BaseEntity.php:24-31 | a setter with a parameter called with the converted value: the setter's field takes it, or the call throws when the parameter refuses it |
| TaskEntity.FillStep | src/Entity/BaseEntity.php:18-33 | one iteration of fill's loop: skip a key with no setter or a setter without parameters, otherwise call the setter |
| TaskEntity.FillSpec | src/Entity/BaseEntity.php:15-37 | fill over the entries in order, stopping at the first setter call that throws |
| TaskEntity.PropertyViolations | src/Entity/Task.php:22-41 | each property's constraints report only that property, and report nothing exactly when the property is valid |
| TaskEntity.ViolationsMatchConstraints | src/Entity/Task.php:22-41 | the validator names a property exactly when its constraint fails and names no other; the report is empty exactly for valid tasks (title of length 1..255, description null or at most 1000 characters, isDone set) |
| TaskEntity.EmptyTitleReportsBoth | src/Entity/Task.php:22-28 | an empty title breaks both NotBlank and the minimum length, and both are reported, in that order |
| TaskEntity.SettersComplete | src/Entity/Task.php:64-148 | the setter table lists every method of Task whose name starts with "set" |
| TaskEntity.FindIn | src/Entity/BaseEntity.php:18-20 | a setter found has the looked-for name, ignoring case; none found means no setter in the table has that name |
| TaskEntity.ApplyEffect | src/Entity/BaseEntity.php:24-31 | title and description receive the value's string cast (null clears description), isDone receives convertToBool; the object-typed setters take only null and otherwise throw, leaving the task as it was |
| TaskEntity.FillStepSkips | src/Entity/BaseEntity.php:20-24 | a key without a setter, or naming a hook that takes no parameter, changes nothing |
| TaskEntity.FillStepTouchesOneField | src/Entity/BaseEntity.php:17-33 | one key changes at most the field of the setter it names |
| TaskEntity.FillTouchesOnlyNamedFields | src/Entity/BaseEntity.php:15-37 | fill changes only the fields whose setters its keys name, and never the id |
| TaskEntity.FillSpecExtend | src/Entity/BaseEntity.php:17-34 | one more key runs one more loop step on the fields as they stood |
| TaskEntity.FillStopsAtThrow | src/Entity/BaseEntity.php:31 | once a setter call throws, no later key is reached |
| TaskEntity.FillIgnoresUnknownFields | src/Entity/BaseEntity.php:20-24 | an array whose keys name no setter taking a parameter leaves the task unchanged |
| TaskEntity.MethodNamesDistinct | src/Entity/Task.php:64-148 | no two setters share a name, ignoring case |
| TaskEntity.FindSetterFinds | src/Entity/BaseEntity.php:18-20 | a key matching a setter's name in any case finds that setter |
| TaskEntity.FillSingle | src/Entity/BaseEntity.php:17-31 | fill with one key naming a setter with a parameter is that setter's call with the converted value |
| TaskEntity.FillIsDoneKey | src/Entity/BaseEntity.php:29-31 | an isDone key sets isDone to convertToBool of its value |
| TaskEntity.FillTitleKey | src/Entity/BaseEntity.php:29-31 | a title key sets the title to the value's string cast |
| TaskEntity.FillOwnerKey | src/Entity/Task.php:130-135 | an owner key clears the owner when null, and otherwise throws without changing the task |
| TaskEntity.RepeatedKeyLastValueWins | src/Entity/BaseEntity.php:17 | a repeated key is one entry with its last value: an owner key sent as a non-null value and then as null clears the owner, where visiting both pairs would have thrown |
| TaskEntity.Task.constructor | src/Entity/Task.php:19-52 | a new task has every field null except isDone, which is false |
| TaskEntity.Task.FromRow | src/Entity/Task.php:19-52 | a task loaded from a row holds exactly the row's values |
| TaskEntity.Task.SetTitle | src/Entity/Task.php:64-69 | sets the title, changes no other field, returns the same object |
| TaskEntity.Task.SetDescription | src/Entity/Task.php:76-81 | sets the description, null included, changes no other field, returns the same object |
| TaskEntity.Task.SetIsDone | src/Entity/Task.php:94-99 | sets isDone, which both getters then return; changes no other field and returns the same object |
| TaskEntity.Task.SetCreatedAt | src/Entity/Task.php:106-111 | sets createdAt only and returns the same object |
| TaskEntity.Task.SetUpdatedAt | src/Entity/Task.php:118-123 | sets updatedAt only and returns the same object |
| TaskEntity.Task.SetOwner | src/Entity/Task.php:130-135 | sets the owner only and returns the same object |
| TaskEntity.Task.SetCreatedAtValue | src/Entity/Task.php:137-142 | the PrePersist hook sets both timestamps to the clock reading and nothing else |
| TaskEntity.Task.SetUpdatedAtValue | src/Entity/Task.php:144-148 | the PreUpdate hook sets updatedAt to the clock reading; createdAt and every other field stay as they were |
| TaskEntity.Task.Invoke | src/Entity/BaseEntity.php:31 | called with a value convertValue has already converted, the setter call throws exactly when the parameter does not accept the value; otherwise the setter's field takes the value |
| TaskEntity.Task.Fill | src/Entity/BaseEntity.php:15-37 | the loop over the array's entries ends in the state the key-by-key fill function gives, and reports whether a setter threw; it returns the same object |
| TaskEntity.IsDoneGettersAgree | src/Entity/Task.php:83-92 | isDone() and getIsDone() return the same value, the isDone field |
| TaskApi.CeilDiv | src/Controller/TaskController.php:54 | `ceil($a / $b)` for a count and the page size |
| TaskApi.ListPage | src/Controller/TaskController.php:40-70 | the response of list for the ordered ids and a page: the page's slice of views, and the pagination block |
| TaskApi.List | src/Controller/TaskController.php:32-71 | list: the caller's tasks, newest id first, on the clamped page |
| TaskApi.Show | src/Controller/TaskController.php:74-81 | show: 404 for an unknown id, 403 for someone else's task, otherwise the task |
| TaskApi.Edited | src/Controller/TaskController.php:127-129 | update's three setter calls, each key that is absent or null falling back to the task's own value |
| TaskApi.CreateSpec | src/Controller/TaskController.php:84-112 | create: 400 for a malformed body, 500 when a value cannot be passed, 422 with the violations, otherwise the task stamped, given the next id and stored, answered 201 |
| TaskApi.UpdateSpec | src/Controller/TaskController.php:115-141 | update: 404, then 403 before the body is read, 400 for a malformed body, 500 when a value cannot be passed, 422 with the violations, otherwise the task stored (stamped when a field changed), answered 200 |
| TaskApi.DeleteSpec | src/Controller/TaskController.php:144-154 | delete: 404, then 403, otherwise the task removed with the fixed message |
| TaskApi.EffectivePage | src/Controller/TaskController.php:38 | the page used is at least 1 |
| TaskApi.EffectivePageOfDecimal | src/Controller/TaskController.php:38 | a page given in decimal is that page if it is at least 1, and page 1 otherwise; no page parameter means page 1 |
| TaskApi.Descending | src/Controller/TaskController.php:48 | the ids in strictly decreasing order, each exactly once |
| TaskApi.PageSliceContents | src/Controller/TaskController.php:40-51 | the slice holds up to ten ids, from offset (page - 1) * 10 on |
| TaskApi.Views | src/Controller/TaskController.php:58-59 | each listed task is serialized in order, without its owner |
| TaskApi.OwnedDescending | src/Controller/TaskController.php:43-51 | the caller's task ids only, as many as the caller owns, newest first |
| TaskApi.OwnedDescendingComplete | src/Controller/TaskController.php:46-51 | every task of the caller has a place in that order |
| TaskApi.PaginationLaws | src/Controller/TaskController.php:38-68 | the page is at least 1 and the total is the caller's task count; total_pages is the total divided by ten, rounded up (0 when there are no tasks); has_next_page holds exactly when tasks lie beyond this page; has_previous_page holds exactly when the page is above 1; next_page and previous_page are the neighbours exactly when their flags hold, and null otherwise |
| TaskApi.PageContents | src/Controller/TaskController.php:40-51 | a page holds at most ten views, exactly those at positions offset to offset + 9 of the ordered ids |
| TaskApi.ListedTasks | src/Controller/TaskController.php:38-59 | list shows at most ten tasks, exactly the caller's tasks at positions offset to offset + 9 of the descending id order |
| TaskApi.PageOwnedAndOrdered | src/Controller/TaskController.php:46-51 | a page of owned, strictly decreasing ids shows only the caller's tasks, in that order |
| TaskApi.ListedTasksAreOwnedAndOrdered | src/Controller/TaskController.php:43-59 | list shows only the caller's tasks, each at most once, in strictly decreasing id order |
| TaskApi.PositionIsListed | src/Controller/TaskController.php:38-51 | the task at each position of the order is shown on the page that position falls on |
| TaskApi.EveryOwnedTaskIsListed | src/Controller/TaskController.php:32-71 | every task of the caller appears on some page |
| TaskApi.PageOf | src/Controller/TaskController.php:40 | the page whose offset range contains a position |
| TaskApi.FifteenTasks | src/Controller/TaskController.php:38-68 | with fifteen tasks, page 1 holds ten and offers page 2; page 2 holds five and offers page 1 back |
| TaskApi.Coerced | src/Controller/TaskController.php:96-98 | after the three setter calls, title and isDone are set and the other fields are as they were |
| TaskApi.TaskController.constructor | src/Controller/TaskController.php:24-29 | the store starts empty and satisfies the store invariant |
| TaskApi.TaskController.Create | src/Controller/TaskController.php:84-112 | create has exactly the response and store change of `CreateSpec` |
| TaskApi.TaskController.Persist | src/Controller/TaskController.php:108-109 | persisting stamps both timestamps and assigns the next id; the store gains that row under that id |
| TaskApi.TaskController.Update | src/Controller/TaskController.php:115-141 | update has exactly the response and store change of `UpdateSpec` |
| TaskApi.TaskController.Delete | src/Controller/TaskController.php:144-154 | delete has exactly the response and store change of `DeleteSpec` |
| TaskApi.NonOwnerIsDenied | src/Controller/TaskController.php:76-78 | show, update and delete of someone else's task answer 403 ACCESS_DENIED whatever the body (update checks the owner before parsing), and the store is unchanged |
| TaskApi.UnknownIdIsNotFound | src/EventListener/ExceptionListener.php:17-24 | an unknown id is a 404 for show, update and delete, and the store is unchanged |
| TaskApi.CreateFailureChangesNothing | src/Controller/TaskController.php:89-106 | a create that does not succeed leaves the store and the id counter as they were |
| TaskApi.UpdateFailureChangesNothing | src/Controller/TaskController.php:117-136 | an update that does not succeed leaves the store as it was |
| TaskApi.CreateAddsOneOwnedTask | src/Controller/TaskController.php:95-111 | a successful create answers 201 and adds exactly one task under a fresh id; the task is owned by the caller, valid, stamped with the clock on both timestamps, and is what the response shows |
| TaskApi.CreateWithDefaults | src/Controller/TaskController.php:96-99 | a payload holding only a valid title creates a task with a null description, not done, owned by the caller |
| TaskApi.CreateWithoutTitleFails | src/Controller/TaskController.php:96-106 | a missing, null or empty title is answered 422 with the two title violations, and nothing is stored, whatever description (not an array, at most 1000 characters) and isDone (not an array) come with it |
| TaskApi.CreateStoresPayload | src/Controller/TaskController.php:95-111 | a created task holds the string cast of the title (default ""), the string cast of the description or null (default null) and the boolean cast of isDone (default false); create answers 500 exactly when one of the three is an array |
| TaskApi.CreatePreservesInvariant | src/Controller/TaskController.php:102-111 | create keeps the store invariant: every stored task is under its own id, owned, stamped and valid |
| TaskApi.UpdatePreservesInvariant | src/Controller/TaskController.php:127-140 | update keeps the store invariant |
| TaskApi.DeletePreservesInvariant | src/Controller/TaskController.php:150-151 | delete keeps the store invariant |
| TaskApi.UpdateKeepsOtherFields | src/Controller/TaskController.php:127-140 | a successful update changes only the task it names, which keeps its id, owner and createdAt and stays valid; updatedAt becomes the clock reading exactly when title, description or isDone changed |
| TaskApi.EditedFields | src/Controller/TaskController.php:127-129 | a key that is absent or null keeps the field's value, so a null description cannot clear it; a string title or description, or a boolean isDone, is stored as given |
| TaskApi.EditedIsStable | src/Controller/TaskController.php:127-129 | applying the same payload to its own result gives that result again |
| TaskApi.PartialUpdate | src/Controller/TaskController.php:127-140 | a successful update keeps every field whose key is absent or null, and stores the given string or boolean values as they are |
| TaskApi.UpdateIsIdempotent | src/Controller/TaskController.php:115-141 | sending the same update again succeeds with the same response, stores the same task and does not stamp it again |
| TaskApi.DeleteRemovesExactlyThatTask | src/Controller/TaskController.php:150-153 | the owner's delete removes exactly that task, keeps the others, answers "Task deleted successfully", and the task is a 404 afterwards |
| ErrorResponses.Entries | src/Response/ErrorResponse.php:16-23 | one `{property, message}` entry per violation, in violation order |
| ErrorResponses.ValidationError | src/Response/ErrorResponse.php:11-30 | the given status and error code, mirrored in the body, with one entry per violation in order |
| ErrorResponses.InvalidJson | src/Response/ErrorResponse.php:32-39 | 400 INVALID_JSON with its fixed message, the body status mirroring the HTTP status |
| ErrorResponses.AccessDenied | src/Response/ErrorResponse.php:41-48 | 403 ACCESS_DENIED with its fixed message, the body status mirroring the HTTP status |
| ErrorResponses.Unauthorized | src/Response/ErrorResponse.php:50-57 | 401 UNAUTHORIZED carrying the caller's message verbatim, the body status mirroring the HTTP status |
| ErrorResponses.CustomError | src/Response/ErrorResponse.php:59-69 | the given code, message and status, the body status mirroring the HTTP status |
| ErrorResponses.BuilderDefaults | src/Response/ErrorResponse.php:13-14 | validationError defaults to 422 VALIDATION_FAILED; customError defaults to 400 |
| AuthApi.User.constructor | src/Controller/AuthController.php:38 | a new user has no id; its email and password are never read before setEmail and setPassword set them |
| AuthApi.User.SetEmail | src/Controller/AuthController.php:39 | sets the email only |
| AuthApi.User.SetPassword | src/Controller/AuthController.php:40 | sets the password only |
| AuthApi.AuthController.constructor | src/Controller/AuthController.php:22-27 | the user store starts empty |
| AuthApi.RegisterSpec | src/Controller/AuthController.php:30-64 | register: 400 for a malformed body, 500 when a value cannot be passed, 422 with the violations, 400 EMAIL_ALREADY_EXISTS for a taken email, otherwise the user stored with the hashed password, answered 201 |
| AuthApi.AuthController.Register | src/Controller/AuthController.php:30-64 | register has exactly the response and store change of `RegisterSpec` |
| AuthApi.InvalidJsonComesFirst | src/Controller/AuthController.php:32-36 | an unparsable body is answered 400 INVALID_JSON before anything else, and the store is unchanged |
| AuthApi.MissingFieldsAreValidatedAsEmpty | src/Controller/AuthController.php:39-47 | an absent or null email and password are answered exactly as two empty strings, whatever the validator makes of them; a validator that rejects them gives 422 with its violations |
| AuthApi.MissingPasswordIsValidatedAsEmpty | src/Controller/AuthController.php:39-40 | an absent or null password is answered exactly as "" next to the email as sent |
| AuthApi.MissingEmailIsValidatedAsEmpty | src/Controller/AuthController.php:39-40 | an absent or null email is answered exactly as "" next to the password as sent |
| AuthApi.ValidationFailureStopsEarly | src/Controller/AuthController.php:43-47 | a validation failure answers 422 VALIDATION_FAILED with the violations; the store is unchanged and the outcome does not depend on the hasher |
| AuthApi.DuplicateEmailIsRejected | src/Controller/AuthController.php:53-58 | a taken email answers 400 EMAIL_ALREADY_EXISTS "Email already exists.", and the store is unchanged |
| AuthApi.RegistrationAddsOneUser | src/Controller/AuthController.php:50-63 | success answers 201 with the new id and the submitted email; exactly one user is added, under a fresh email, storing the hash of the submitted password |
| AuthApi.RegisterPreservesInvariant | src/Controller/AuthController.php:50-55 | ids stay distinct and below the next one, and every stored password is a hasher output |
| AuthApi.SecondRegistrationIsRefused | src/Controller/AuthController.php:53-58 | after a success, the same request again is refused as a duplicate email |
| Security.Supports | src/Security/JsonLoginAuthenticator.php:26-29 | supports: the path is the login path and the method, upper-cased, is POST |
| Security.Authenticate | src/Security/JsonLoginAuthenticator.php:31-50 | authenticate: "Invalid JSON" for a malformed body, the required-fields failure when `empty()` holds for the email or the password (each defaulting to ""), a TypeError for a non-empty array, otherwise the passport with both cast to strings |
| Security.HandleLogin | src/Security/JsonLoginAuthenticator.php:26-72 | the login flow: supports, authenticate, the credential check, then the success or failure handler |
| Security.OnAuthenticationFailure | src/Security/JsonLoginAuthenticator.php:60-67 | every failure response mirrors its status in the body |
| Security.Start | src/Security/JsonLoginAuthenticator.php:69-72 | start always answers 401 with the status mirrored |
| Security.OnAuthenticationSuccess | src/Security/JsonLoginAuthenticator.php:52-58 | a successful login answers 200 |
| Security.SupportsExactly | src/Security/JsonLoginAuthenticator.php:26-29 | supports holds exactly for the path "/api/auth/login" with a method spelling POST in any case; the path with a trailing slash is not handled |
| Security.MalformedLoginIsInvalidJson | src/Security/JsonLoginAuthenticator.php:33-37 | an unparsable body fails with "Invalid JSON", which is answered 400 INVALID_JSON |
| Security.EmptyCredentialsAreRejected | src/Security/JsonLoginAuthenticator.php:39-44 | a missing, null or PHP-empty email or password ("" and "0" included) fails with the required-fields message, answered 401, before any credential check |
| Security.ZeroStringIsEmpty | src/Security/JsonLoginAuthenticator.php:42 | the password "0" counts as empty |
| Security.PassportCarriesCredentials | src/Security/JsonLoginAuthenticator.php:46-49 | non-empty string credentials reach the passport unchanged |
| Security.ArrayCredentialCrashes | src/Security/JsonLoginAuthenticator.php:39-47 | a non-empty array as email passes the emptiness test but cannot be passed as a string, so authenticate fails with a TypeError |
| Security.FailureMapping | src/Security/JsonLoginAuthenticator.php:60-67 | a custom-message authentication failure whose message is exactly "Invalid JSON" is a 400 INVALID_JSON; every other failure, including another kind of exception with that message, is a 401 UNAUTHORIZED carrying its message verbatim |
| Security.StartMessage | src/Security/JsonLoginAuthenticator.php:69-72 | start carries the exception's message, even an empty one, and "Authentication required." only when there is no exception |
| Security.LoginOutcome | src/Security/JsonLoginAuthenticator.php:52-67 | when the credential check accepts, the answer is 200 with exactly the issuer's token for that user; when it rejects, the answer is 401 with the check's message, except a custom-message failure reading exactly "Invalid JSON", which is a 400 INVALID_JSON |

## Left out

- Persistence is an in-memory map from id to field values, with a counter for generated ids. The Doctrine entity manager, the `count`/`findBy` queries and the parameter converter that loads `Task $task` are not modelled. An unknown id becomes the 404 of the not-found exception, which src/EventListener/ExceptionListener.php:17-24 turns into a response.
- The owner is a user id. A task's owner is compared with the caller by id, not by object identity.
- TaskApi.UpdateSpec: the PreUpdate hook is stamped only when title, description or isDone changed. This follows Doctrine, which fires the hook only for a non-empty change set. Change-set computation is otherwise not modelled.
- Both PrePersist timestamps take one clock reading `now`. The hook creates two DateTimeImmutable objects, which may differ by microseconds.
- The `ceil` of a float division is integer ceiling division.
- A page query given as an array is not modelled. The page parameter is an optional string.
- Php.IntOfString: the `(int)` cast of a string reads leading whitespace, a sign and a run of digits. Exponent notation, fractional digits and the 64-bit overflow of PHP integers are not modelled, so a very long digit string yields its exact value.
- The `(float)` cast of convertValue is not modelled, and neither are JSON numbers with a fraction. `Value` has no float case, and `Kind` has no float kind.
- BaseEntity.ConvertToBool: `is_numeric` is modelled for integers only, since there are no floats.
- Reflection is replaced by a static table of Task's setters.
  - Each setter's name is kept lower-case, because PHP compares method names without regard to case.
  - Each setter's declared parameter types are kept.
- JSON decoding is not modelled. A request body is either an array of key/value pairs, with integer keys written as their decimal strings, or malformed.
- A sequence of pairs that repeats a key stands for the PHP array `Php.ArrayEntries` gives: each key once, at its first position, with its last value, as json_decode builds it. TaskEntity.Task.Fill loops over that array, and `??` reads the same value from either form.
- JWT creation is opaque: the token is whatever the issuer parameter returns.
- The password hashing algorithm and the credential check are parameters. Their failure messages ("Bad credentials." and others) come from the framework and are not modelled.
- User.php is not part of this model. The user validator is a parameter of (email, password) only, and only the email, password and id fields are kept. The validator never sees the stored users, so the model assumes User has no UniqueEntity constraint: a taken email passes validation and is refused afterwards with 400 EMAIL_ALREADY_EXISTS, as the registration tests expect. AuthApi.DuplicateEmailIsRejected and AuthApi.SecondRegistrationIsRefused rest on that assumption. Email uniqueness is exact string equality on the stored key.
- Gaps in the database's id sequence are not modelled. Generated ids are consecutive from 1, and a failed insert uses no id.
- The request method override header and UserBadge's 4096-character limit on the identifier are not modelled.
- `isMethod('POST')` is modelled as an upper-cased comparison of the method as sent.
- StatusController, AuthenticationFailureHandler, the firewall configuration and the migration are not modelled. They are I/O, global JSON-error state and configuration.
- Where the integration tests disagree with the code, the model follows the code:
  - an unparsable task body gives error code INVALID_JSON, not "Invalid JSON";
  - a task validation failure is 422 VALIDATION_FAILED, not 400;
  - an update with an empty title is 422 VALIDATION_FAILED with the two title violations, not a 400 with a single message;
  - an isDone of "not a boolean" is accepted: it is coerced to true by the `bool` parameter, so no error arises.
