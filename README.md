# forms-interestedParties-Service in Dafny

This project models the core of a NestJS back end. Interested parties send a contact form through it, and an administrator logs in to list, filter, count and rank the forms. The model covers the following:

- **Value objects.** `Email`, `PhoneNumber` and `PostalCode` each validate their raw text, store a normalised form and compare by that form. The three `Transform…` decorators apply them to a request body before validation.
- **Request DTOs.** `CreateFormDto` and `FilterFormsDto` are checked as the global `ValidationPipe` checks them. The pipe's `whitelist`, `forbidNonWhitelisted` and `transform` options are part of that check.
- **Forms service.** It covers `create`, `findAll`, `filterForms`, `getStats`, `getTopMunicipalities` and `getTopStates`, over a table of contact forms. It also covers the mapper's response shapes.
- **Error handling.** `HandleServiceError` and the service's own `catch` blocks turn whatever a database read throws into an `RpcException`. The global `AllExceptionsFilter` turns any exception into a response body: a status, a masked path, a message and an optional stack trace.
- **Login lockout.** `AuthService.validateUser` and `login`, with the controller's mapping of a `null` user to 401.

Each source file is one module:

- `wrappers.dfy` holds the `Option` and `Result` types.
- `js_text.dfy` holds the JavaScript built-ins the code relies on: `\s` and `trim`, ASCII `toLowerCase`, `parseInt` with NaN, `replace` with a string pattern, and `Array.prototype.map`.
- `ordering.dfy` holds the `ORDER BY … DESC` used by two queries.
- `request_value.dfy` holds the untyped values of a request body.

The lockout rules are a pure step function, `AuthService.Step`, on the two lockout columns of a user. `AuthService.AuthService.ValidateUser` is an imperative method: it loads a fresh entity, mutates its fields and calls `save`. The method is proved to return `Step`'s verdict, to leave the table holding `Step`'s final state, and to save exactly `Step`'s list of states, in order. The properties of the lockout are proved about `Step` and about `Run`, which folds `Step` over a sequence of attempts.

The model keeps three behaviours of the source exactly as written:

- **The phone number quirk.** `PhoneNumber` accepts `+` followed by nine digits. Those ten characters fit the allowed length of 10. The number is then stored with `+52` in front. The stored value `+52+123456789` is refused by the same validation, so `PhoneNumberValue.StoredValueRevalidates` holds for every other accepted number only. `PlusNineDigitsExample` and `PlusNineDigitsStoredRejected` exhibit the case. `getFormatted` shows that stored value as `+52 (+12) 345-6789` (`PlusNineDigitsFormatted`).
- **`getTopStates` answers like `getTopMunicipalities`.** It groups by `estado` but puts the name under `municipio`. It also uses the municipalities' error message.
- **Every service failure reaches a client as 500.** An `RpcException` is an `Error` but not an `HttpException`, so `AllExceptionsFilter` answers 500 with the generic message, whatever status the service gave. `ExceptionFilter.ServiceFailureAnswer` states this.

Inputs the model takes as parameters:

- the clock `now`;
- `bcrypt.compare`, as a function `compare`;
- `jwtService.sign`, as a function `sign`;
- the library's `isEmail`, as a predicate;
- every database read, as its outcome: the rows, or the value thrown.

## Model

| member | source | states |
|---|---|---|
| EmailValue.Validate | src/forms/domain/value-objects/email.vo.ts:13-26 | blank text (empty or only white space) is `Empty`; other text not matching `^[^\s@]+@[^\s@]+\.[^\s@]+$` is `InvalidFormat`; matching text over 255 characters is `TooLong`; otherwise accepted — each as an if-and-only-if |
| EmailValue.AcceptedShape | src/forms/domain/value-objects/email.vo.ts:18-21 | an address the pattern admits has no white space, exactly one `@` with text before it, and a `.` after it with text on both sides |
| EmailValue.LowerRevalidates | src/forms/domain/value-objects/email.vo.ts:8-11 | the lowercased form of an accepted address is accepted, and lowercasing and trimming it again change nothing |
| EmailValue.StoredValue | src/forms/domain/value-objects/email.vo.ts:8-11 | the stored value is the input lowercased; `getValue` and `toString` return it; building an Email from it gives the same Email |
| EmailValue.EqualsIgnoresCase | src/forms/domain/value-objects/email.vo.ts:30-32 | two accepted addresses are `equals` exactly when they agree after lowercasing |
| PhoneNumberValue.Clean | src/forms/domain/value-objects/phone-number.vo.ts:19 | removing `\s`, `-`, `(`, `)` leaves no such character and never lengthens the text |
| PhoneNumberValue.CleanConcat | src/forms/domain/value-objects/phone-number.vo.ts:19 | the global replace works piecewise: cleaning a concatenation is concatenating the cleaned parts |
| PhoneNumberValue.Validate | src/forms/domain/value-objects/phone-number.vo.ts:13-30 | blank text is `Empty`, exactly; text is accepted exactly when its cleaned form is an optional `+` then digits, of length 10, 12 or 13 |
| PhoneNumberValue.NormalizedRechecks | src/forms/domain/value-objects/phone-number.vo.ts:32-52 | on an accepted cleaned number, the normalised form has no separators; it passes the checks and normalises to itself exactly when the number is not `+` and nine digits; in that case it fails as not digits |
| PhoneNumberValue.StoredValueRevalidates | src/forms/domain/value-objects/phone-number.vo.ts:8-52 | the stored value of an accepted number builds the same PhoneNumber again exactly when the cleaned input is not `+` and nine digits; in that case it is refused as `NotDigits` |
| PhoneNumberValue.PlusNineDigitsExample | src/forms/domain/value-objects/phone-number.vo.ts:46-49 | `+123456789` is accepted and stored as `+52+123456789` |
| PhoneNumberValue.PlusNineDigitsStoredRejected | src/forms/domain/value-objects/phone-number.vo.ts:21-24 | `+52+123456789` is refused as not digits |
| PhoneNumberValue.NationalNormalized | src/forms/domain/value-objects/phone-number.vo.ts:36-49 | ten digits `d`, written as `d`, `52d` or `+52d`, are accepted and normalised to `+52d` |
| PhoneNumberValue.NationalStored | src/forms/domain/value-objects/phone-number.vo.ts:8-11 | any spelling whose cleaned form is one of those is accepted and stored as `+52d` |
| PhoneNumberValue.NationalFormatted | src/forms/domain/value-objects/phone-number.vo.ts:61-67 | `getFormatted` of such a number is `+52 (ddd) ddd-dddd` |
| PhoneNumberValue.FormattedCases | src/forms/domain/value-objects/phone-number.vo.ts:58-67 | for every accepted number, `getFormatted` is `+52 (ddd) ddd-dddd` of its ten national digits when it has a national form, that readable shape over the ten cleaned characters for a `+` and nine digits, and the stored value unchanged in every other case |
| PhoneNumberValue.PlusNineDigitsFormatted | src/forms/domain/value-objects/phone-number.vo.ts:58-67 | the stored `+52+123456789` is shown as `+52 (+12) 345-6789`, outside the documented `+52 (xxx) xxx-xxxx` shape |
| PhoneNumberValue.SameNationalEqual | src/forms/domain/value-objects/phone-number.vo.ts:69-71 | two spellings of the same ten digits give `equals` phone numbers |
| PostalCodeValue.Validate | src/forms/domain/value-objects/postal-code.vo.ts:13-34 | blank text is `Empty`; a trimmed text with a non-digit is `NotDigits`; accepted exactly when the trimmed text is five digits not starting with `0` |
| PostalCodeValue.AcceptedValue | src/forms/domain/value-objects/postal-code.vo.ts:8-34 | an accepted code stores five digits whose number is between 10000 and 99999, and `parseInt` reads that number |
| PostalCodeValue.InRangeIff | src/forms/domain/value-objects/postal-code.vo.ts:43-46 | `isInRange(min, max)` holds exactly when the code's number lies between the bounds |
| PostalCodeValue.StoredValueRevalidates | src/forms/domain/value-objects/postal-code.vo.ts:8-11 | building a PostalCode from a stored value gives the same PostalCode |
| PostalCodeValue.EqualsIffSameNumber | src/forms/domain/value-objects/postal-code.vo.ts:48-50 | two accepted codes are `equals` exactly when they denote the same number |
| Transforms.TransformEmail | src/common/decorators/transform-email.decorator.ts:8-20 | an accepted email string becomes its lowercased form; anything else, falsy or refused, is returned unchanged |
| Transforms.TransformPhone | src/common/decorators/transform-phone.decorator.ts:8-18 | an accepted phone string becomes its normalised form; anything else is returned unchanged |
| Transforms.TransformPostalCode | src/common/decorators/transform-postal-code.decorator.ts:8-18 | an accepted postal code string becomes its trimmed form; anything else is returned unchanged |
| Transforms.FalsyUnchanged | src/common/decorators/transform-email.decorator.ts:10 | a falsy value is left alone by all three transforms |
| Transforms.TransformEmailIdempotent | src/common/decorators/transform-email.decorator.ts:8-20 | applying the email transform twice is applying it once |
| Transforms.TransformPhoneIdempotent | src/common/decorators/transform-phone.decorator.ts:8-18 | applying the phone transform twice is applying it once, the `+` and nine digits case included |
| Transforms.TransformPostalCodeIdempotent | src/common/decorators/transform-postal-code.decorator.ts:8-18 | applying the postal code transform twice is applying it once |
| Transforms.PostalCodeExamples | src/common/decorators/transform-postal-code.decorator.ts:8-18 | `' 29000 '` becomes `'29000'`; `'01234'` and `'2900'` are returned unchanged |
| CreateFormDto.AcceptsIff | src/forms/data/dtos/create-form.dto.ts:10-125 | a body is accepted exactly when it has only known properties (the whitelist of src/main.ts:39-41) and every field passes its decorators |
| CreateFormDto.MissingFieldRefused | src/forms/data/dtos/create-form.dto.ts:10-125 | a body without any one field is refused, that field reported |
| CreateFormDto.UnknownPropertyRefused | src/main.ts:39-41 | a body with a property outside the DTO is refused, that property reported |
| CreateFormDto.AcceptedFitsColumns | src/forms/data/entities/contact-form.entity.ts:9-43 | every field of an accepted body is a string that fits its column's width |
| CreateFormDto.BlankTextAccepted | src/forms/data/dtos/create-form.dto.ts:10-13 | `IsNotEmpty` lets white-space-only text through |
| CreateFormDto.DtoPhoneVersusValueObject | src/forms/data/dtos/create-form.dto.ts:32-34 | a phone number the DTO accepts is a valid PhoneNumber exactly when it has 10, 12 or 13 digits |
| CreateFormDto.DtoPostalCodeVersusValueObject | src/forms/data/dtos/create-form.dto.ts:74-76 | a postal code the DTO accepts is a valid PostalCode exactly when it has five digits and does not start with `0` |
| FilterFormsDto.TrimTransform | src/forms/data/dtos/filter-forms.dto.ts:15 | `value?.trim()` fails exactly on a present non-string value |
| FilterFormsDto.Validate | src/forms/data/dtos/filter-forms.dto.ts:10-26 | a transform failure exactly when a field holds a non-string; an accepted query has only known properties; a refused one reports exactly the failing fields and unknown properties |
| FilterFormsDto.AcceptedCarriesTrimmed | src/forms/data/dtos/filter-forms.dto.ts:10-26 | an accepted query carries each field's trimmed text, or nothing when the field is absent |
| FilterFormsDto.EmptyQueryAccepted | src/forms/data/dtos/filter-forms.dto.ts:10-26 | an empty query is accepted with no filter |
| FilterFormsDto.FailingFieldRefused | src/forms/data/dtos/filter-forms.dto.ts:10-26 | a string field whose trimmed value fails its decorators makes the query refused, with that field reported |
| FilterFormsDto.BlankValueRefused | src/forms/data/dtos/filter-forms.dto.ts:12 | a value blank after trimming is refused, that field reported |
| FilterFormsDto.LongValueRefused | src/forms/data/dtos/filter-forms.dto.ts:13 | a value longer than 100 characters after trimming is refused, that field reported |
| ServiceErrors.StatusOf | src/common/decorators/handle-service-error.decorator.ts:33 | the thrown status when it is present and not 0, 500 otherwise; never 0 |
| ServiceErrors.NormalizeStable | src/common/decorators/handle-service-error.decorator.ts:30-35 | with a non-empty default, the RPC error has a non-empty message and a non-zero status, and normalising it again under any default changes nothing |
| ServiceErrors.NormalizeFallbacks | src/common/decorators/handle-service-error.decorator.ts:32-33 | the default message and status 500 appear exactly when the thrown value lacks the field or already holds that value |
| ExceptionFilter.KeyLen | src/common/filters/all-exceptions.filter.ts:73 | when positive, the text starts with `token`, `password` or `secret` (in any case) of that length followed by `=`; no other length has that property, so it is 0 exactly when no sensitive name and `=` start the text |
| ExceptionFilter.SanitizeMasks | src/common/filters/all-exceptions.filter.ts:71-74 | after `sanitizeUrl`, every `?` or `&` followed by a sensitive name and `=` is followed by `***` up to the next `&` or the end |
| ExceptionFilter.SanitizeKeepsHead | src/common/filters/all-exceptions.filter.ts:71-74 | everything up to and including the first `?` or `&` is kept as it is |
| ExceptionFilter.SanitizeKeepsUnmatched | src/common/filters/all-exceptions.filter.ts:71-74 | the text before the first match is kept as it is, and the rest is sanitised on its own |
| ExceptionFilter.SanitizeParam | src/common/filters/all-exceptions.filter.ts:73 | after a `?` or `&`, a sensitive parameter keeps its delimiter and the case of its name and has its whole value replaced by `***`; any other parameter is kept |
| ExceptionFilter.SanitizeQuery | src/common/filters/all-exceptions.filter.ts:71-74 | for a path followed by a query string of parameters, the result is the path followed by the same query with each sensitive value replaced by `***`: delimiters, names in their own case and all other parameters are kept |
| ExceptionFilter.AccessTokenExample | src/common/filters/all-exceptions.filter.ts:73 | in `/login?access_token=abc&Token=xyz&page=2` only the value of `Token` is masked; `access_token` and `page` are kept |
| ExceptionFilter.MaskedFixpoint | src/common/filters/all-exceptions.filter.ts:71-74 | a masked URL is left unchanged by `sanitizeUrl` |
| ExceptionFilter.SanitizeIdempotent | src/common/filters/all-exceptions.filter.ts:71-74 | sanitising twice is sanitising once |
| ExceptionFilter.NoSensitiveParameterUnchanged | src/common/filters/all-exceptions.filter.ts:71-74 | a URL without a sensitive parameter is left unchanged |
| ExceptionFilter.BodyMessage | src/common/filters/all-exceptions.filter.ts:60 | an object is sent as it is; anything else is wrapped as `{ message }` |
| ExceptionFilter.ResponseShape | src/common/filters/all-exceptions.filter.ts:56-66 | the body's message is an object, its path is masked, and a stack is sent exactly in development for an `Error`, where it is that error's own |
| ExceptionFilter.NonHttpAnswer | src/common/filters/all-exceptions.filter.ts:21-29 | anything that is not an `HttpException` gets 500 and `{ message: 'Error interno del servidor' }`, logged as an error |
| ExceptionFilter.HttpStringAnswer | src/common/filters/all-exceptions.filter.ts:21-29 | an `HttpException` with a string response gets its own status and `{ message: text }` |
| ExceptionFilter.RpcExceptionOf | src/common/decorators/handle-service-error.decorator.ts:31-34 | an `RpcException` is an `Error` and not an `HttpException` |
| ExceptionFilter.ServiceFailureAnswer | src/common/filters/all-exceptions.filter.ts:21-53 | a service failure is answered with 500 and the generic message and logged at error level, and the answer does not depend on the RPC error's message or status |
| ContactForms.ResponseDtoRoundTrip | src/forms/services/contact-form.mapper.ts:12-31 | `toResponseDto` loses nothing: the form can be read back from it, so distinct forms give distinct responses |
| ContactForms.ToResponseDtos | src/forms/services/contact-form.mapper.ts:36-38 | same length and order, each response reading back as its form |
| ContactForms.ToTopMunicipalityDtos | src/forms/services/contact-form.mapper.ts:53-55 | same length and order, each element the mapped row |
| ContactForms.ToTopStateDtos | src/forms/services/contact-form.mapper.ts:70-72 | same length and order, each element the mapped row |
| ContactForms.TopMunicipalityCount | src/forms/services/contact-form.mapper.ts:43-48 | a row whose total is a count written in decimal maps to that count, under the same name |
| ContactForms.TopStateCount | src/forms/services/contact-form.mapper.ts:60-65 | the same for a state row |
| ContactForms.TopCountsOfDigits | src/forms/services/contact-form.mapper.ts:43-65 | a total made of digits maps to its decimal value |
| FormsService.Create | src/forms/services/forms.service.ts:23-33 | the saved form reads back from the response; a throw becomes the RPC error with `'Error al guardar el formulario de contacto'` as the default |
| FormsService.FindAll | src/forms/services/forms.service.ts:35-45 | every form in the repository's order, in response shape; a throw becomes the RPC error with its default message |
| FormsService.Where | src/forms/services/forms.service.ts:51-57 | each form occurs as often as in the table when it satisfies every filter given, and not at all otherwise |
| FormsService.FilterForms | src/forms/services/forms.service.ts:47-69 | the filtered rows, in order and in response shape; a throw becomes the RPC error with `'Error al filtrar los formularios'` as the default |
| FormsService.FilterRowsSpec | src/forms/services/forms.service.ts:49-61 | the rows returned are exactly the table's matching rows, with their multiplicities; each satisfies every filter given; the newest come first |
| FormsService.NoFilterKeepsAll | src/forms/services/forms.service.ts:51-57 | with no filter, or only empty ones, every row is returned |
| FormsService.GetStats | src/forms/services/forms.service.ts:71-89 | a throw becomes the RPC error with `'Error al obtener estadísticas'` as the default |
| FormsService.StatsSpec | src/forms/services/forms.service.ts:73-82 | the total is the number of rows, the attended count is the number of attended rows, and the unattended figure is the number of rows not attended, so it is never negative and the three add up |
| FormsService.Count | src/forms/services/forms.service.ts:96-97 | a group's count is at most the number of rows, and positive exactly when the value occurs in the table |
| FormsService.DistinctKeys | src/forms/services/forms.service.ts:97 | each value of the grouped column, once each, and nothing else |
| FormsService.Groups | src/forms/services/forms.service.ts:95-97 | one group per distinct value, each with its exact count, none repeated |
| FormsService.TopGroupsSpec | src/forms/services/forms.service.ts:93-100 | the groups returned are the top six: at most six, fewer only when there are fewer values; each a distinct value of the table with its exact count; largest first; and no value left out counts more than one kept |
| FormsService.GetTopMunicipalities | src/forms/services/forms.service.ts:91-112 | one answer per top group by municipio, in order, whose count `parseInt` reads back exactly from the driver's text; a throw becomes the RPC error with `'Error al obtener top municipios'` as the default |
| FormsService.GetTopStates | src/forms/services/forms.service.ts:114-136 | one answer per top group by estado, the name under `municipio`, with its exact count; a throw uses the municipalities' default message |
| AuthService.LockedRefuses | src/auth/auth.service.ts:30-33 | while locked, the attempt is refused as locked whatever the password, nothing changes and nothing is saved |
| AuthService.ExpiredLockClearedFirst | src/auth/auth.service.ts:36-40 | once a lock has run out, the cleared state is the first thing saved |
| AuthService.WrongPasswordCounts | src/auth/auth.service.ts:45-58 | a wrong password on an unlocked account adds exactly one failure, locks until `now` plus fifteen minutes when that reaches five and leaves no lock below five, saves the final state and returns `null` |
| AuthService.RightPasswordResets | src/auth/auth.service.ts:61-74 | a right password on an unlocked account is granted and leaves the account as seeded, with no failures and no lock; it saves nothing exactly when there was no lock to clear and no failure to reset, and otherwise saves the seeded state last |
| AuthService.StepKeepsInv | src/auth/auth.service.ts:30-66 | every attempt keeps the invariant "at most five failures, and a lock exactly at five", in its final state and in every state it saves |
| AuthService.RunKeepsInv | src/scripts/seed-admin-user.ts:43-44 | from the seeded user (no failures, no lock), any sequence of attempts keeps that invariant |
| AuthService.ConsecutiveFailures | src/auth/auth.service.ts:45-58 | up to five consecutive wrong passwords from the seeded user count one by one, and only the fifth locks, for fifteen minutes from its own instant |
| AuthService.FifthFailureLocks | src/auth/auth.service.ts:30-58 | the fifth wrong password itself returns `null`; every attempt in the next fifteen minutes is refused as locked, even with the right password; a right password after that is granted and resets the account |
| AuthService.UserRepository.FindOne | src/auth/auth.service.ts:22 | a fresh entity holding the user's row, or `null` exactly when there is no such user |
| AuthService.UserRepository.Save | src/auth/auth.service.ts:39 | the user's row becomes the entity's state, and that row is appended to the saved rows |
| AuthService.AuthService.ValidateUser | src/auth/auth.service.ts:21-75 | an unknown user returns `null` and saves nothing; otherwise the result, the user's final row and the rows saved, in order, are those of `Step` on the stored lockout columns and the password comparison |
| AuthService.ControllerAnswers | src/auth/auth.controller.ts:18-23 | an unknown user and a wrong password get the same 401 `'Credenciales inválidas'`, a locked account 401 with the lock message; a granted user is logged in as the stored id and username with the `admin` role, and the token signs `{ username, sub: id }` of exactly those (`login`, src/auth/auth.service.ts:77-85) |
| JsText.ParseShowNat | src/forms/services/forms.service.ts:104 | `parseInt` of a count written in decimal is that count |
| Ordering.SortDesc | src/forms/services/forms.service.ts:59 | the result is sorted by the key, largest first, and is a permutation of the input |

## Left out

- Unicode: `toLowerCase` is modelled for ASCII letters only. String lengths count Dafny characters, not UTF-16 code units.
- CreateFormDto.FieldOk: `IsEmail` from class-validator is a predicate parameter `isEmail`, not the library's own address grammar.
- The `Transform…` decorators are not attached to the fields of `CreateFormDto`, so the body is validated without them. They are modelled on their own.
- `HandleServiceError` replaces `descriptor.value` on a class prototype. It is modelled as `ServiceErrors.Handle`, a function on the wrapped operation's outcome, not as descriptor mutation.
- FormsService.GetStats: the two `count` queries run concurrently through `Promise.all` and could see different tables. The model takes both counts on one table.
- FormsService.TopGroups: SQL leaves the order of groups with equal counts open. The model picks one such order, and `IsTop` states the property for any order of ties. Grouping compares names exactly; database collation is not modelled.
- FormsService: the repository, the query builder and TypeORM are replaced by the outcome of each read (rows, or the thrown message and status). The entity's generated id and timestamps come from that outcome.
- JavaScript numbers are unbounded integers here. No count in the model comes near 2^53.
- ExceptionFilter.SanitizeMasks: states only that no sensitive value survives. What is kept is stated by `ExceptionFilter.SanitizeQuery` for a URL whose query splits into parameters without `?` or `&` in names and values (and without `=` in names), and by `ExceptionFilter.SanitizeKeepsUnmatched` for the text before the first match. For a value that itself holds `?`, the result is not spelt out beyond those two.
- Logging is modelled as the level chosen (`ExceptionFilter.LevelOf`). The log text and the timestamps of the log and of the response body are left out.
- `AllExceptionsFilter` reads `NODE_ENV` from configuration. In the model it is the parameter `nodeEnv`.
- AuthService: `bcrypt.compare`, `bcrypt.hash` (`hashPassword`, src/auth/auth.service.ts:87-90) and `jwtService.sign` are foreign cryptography. `compare` and `sign` are parameters, and `hashPassword` is not modelled.
- AuthService.AuthService.ValidateUser: `findOne`, `save` and `bcrypt.compare` are total in the model. In the source any of them can throw, and the exception then propagates to the caller, possibly after the first `save` has already cleared an expired lock. Those failing outcomes are not modelled.
- AuthService.AuthService.ValidateUser: the source reads the clock up to three times. The model uses one instant `now` for the whole call.
- AuthService.ControllerLogin: both 401 answers are `Rejected(status, message)`. In the source the body differs. A locked account raises `UnauthorizedException` (src/auth/auth.service.ts:32), whose response is the object with `statusCode`, `message` and `error: "Unauthorized"`. Invalid credentials raise `HttpException` with a plain string (src/auth/auth.controller.ts:20), which the exception filter sends as `{ message }`. Only the status and the message text are modelled.
- AuthService: the controller's throttling (five requests per fifteen minutes) and the log messages are left out. The entity's fields other than id, username, password hash and the two lockout columns are not read by the service and are left out.
- Bootstrap (Helmet, CORS, Swagger, module wiring) holds no logic. Only the `ValidationPipe` options at src/main.ts:39-41 are modelled, inside the two DTO modules.
