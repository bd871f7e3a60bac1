# A verified model of the link-shortener API

This project models the core of an Express and Mongoose URL-shortener service. Users register and log in with an email and a password. They get a 15-minute access token as a JSON Web Token and a refresh token in an `httpOnly` cookie that lasts 30 days. As written, the token inside that cookie is signed to stay valid for about 82 years (see Findings); the model's controllers issue it with the intended 30-day lifetime. With the access token they create, list, update and delete their own short links. Anyone can resolve a six-character alias (`nanoLink`) to its long URL, either as JSON or as a redirect.

The model is written in Dafny. One module stands for each core source file:

- `LinkModel` and `UserModel` model the two Mongoose schemas. Each is a table datatype whose unique indexes are maps, plus a store class that holds the same fields and whose methods update them in place. `UserModel` also models the pre-save hashing hook and `comparePassword`.
- `TokenManager`, `RequireToken` and `RequireRefreshToken` model the token layer. They are built on a symbolic stand-in for jsonwebtoken (`Jwt`) and one for bcrypt (`Bcrypt`).
- `ValidatorManager` models the express-validator chains and `ValidationResultExpress`, including the HTML `escape` sanitizer.
- `LinkController`, `AuthController` and `RedirectController` model the handlers. Each handler is an imperative method over the store and the `Http.Response` object. Each method is proved equal to a pure `...Outcome` function, and the properties are proved about that function.
- `Chain`, `LinkRoute` and `AuthRoute` model the routers. A route is an ordered list of guards. `Chain.RunGuards` stops at the first guard that answers. `LinkRoute.Serve` and `AuthRoute.Serve` look up the route, run its guards and then its controller.

Modelling choices:

- **Tokens.** A token is the decimal rendering of `uid.iat.exp.key`, where `key` identifies the secret. Verification fails with "invalid signature" for another key and with "jwt expired" once the clock, in whole seconds, reaches `exp`.
- **Secrets.** `JWT_SECRET` and `JWT_REFRESH` are `Option<Key>` values in `Http.Env`. An unset secret makes signing throw.
- **Hashes.** A bcrypt hash is `$2a$10$` + salt + `$` + plaintext, and `bcrypt.genSalt` is a parameter (`None` when it fails).
- **Clock and aliases.** The clock (`nowMs`) and the alias `nanoid(6)` returns are parameters.
- **Validator oracles.** `isEmail`, `normalizeEmail` and the reachability check on `longLink` are functions held in `Http.Oracles`.
- **Database faults.** A database whose first query in a handler throws is `Http.Faulty(messageFormat)`. The flag says whether the thrown error carries Mongoose's `messageFormat` field, which the link controllers use to choose between 404 and 500.

## Model

| member | source | states |
|---|---|---|
| Text.TrimIdempotent | models/Link.js:17 | trimming a trimmed string changes nothing |
| Text.TrimEmptyIff | middlewares/validatorManager.js:128-130 | a string trims to empty exactly when it is all whitespace |
| Text.TrimLowerCommute | models/User.js:44-46 | the `trim` and `lowercase` setters commute |
| Text.TrimPadded | models/Link.js:25 | whitespace added on either side of a string is exactly what `trim` takes off again |
| Text.SplitJoin | middlewares/requireToken.js:15 | splitting a join of separator-free pieces gives the pieces back |
| Text.SplitMany | middlewares/requireToken.js:15 | `split` yields a second piece exactly when the separator occurs |
| Text.ParseNatToString | middlewares/validatorManager.js:178-184 | a rendered id parses back to the same number |
| Jwt.DecodeEncode | utils/tokenManager.js:40 | decoding a token gives back its claims and its key |
| Jwt.SignThenVerify | utils/tokenManager.js:40 | a token signed at time s with lifetime L verifies to its uid before s+L seconds and as expired afterwards |
| Jwt.OtherSecretRejects | middlewares/requireToken.js:25 | a token signed under one secret fails verification under another with "invalid signature" |
| Jwt.SignedHasNoSpace | middlewares/requireToken.js:15 | a signed token is non-empty and has no space, so it survives the header split |
| Bcrypt.ParseHash | models/User.js:79 | a hash parses back into its salt and plaintext |
| Bcrypt.CompareHash | models/User.js:97-99 | `compare(p, hash(q, s))` holds exactly when p = q |
| Bcrypt.SaltsSeparate | models/User.js:77-79 | two different salts give two different hashes of one password |
| Bcrypt.HashIsNotPlain | models/User.js:79 | the stored hash is never the plaintext |
| LinkModel.Cast | models/Link.js:13-33 | a link document is exactly {longLink, nanoLink, uid}; both strings are stored trimmed; the document fails validation exactly when either trims to empty |
| LinkModel.StoredStringIsTrimmed | models/Link.js:15-26 | a stored string is exactly a non-empty string that trimming leaves unchanged |
| LinkModel.AliasIsTrimmed | controllers/link.controller.js:208 | a six-character nanoid alias is non-empty and is not changed by the `trim` setter |
| LinkModel.InvariantAliasesUnique | models/Link.js:21-26 | the unique index makes `nanoLink` unique across the collection |
| LinkModel.ByAlias | controllers/link.controller.js:97 | `findOne({nanoLink})` runs the path's `trim` setter on the query value, finds a document exactly when one has the trimmed alias, and returns that document |
| LinkModel.ByAliasIgnoresPadding | models/Link.js:21-26 | surrounding whitespace in the queried alias does not change the lookup |
| LinkModel.ByOwner | controllers/link.controller.js:38-40 | `find({uid})` returns exactly the documents of that owner |
| LinkModel.Insert | models/Link.js:21-26 | a save fails with a duplicate-key error exactly when the alias is taken; otherwise it adds exactly this document under a fresh id and keeps the invariant |
| LinkModel.Replace | controllers/link.controller.js:248-249 | changing `longLink` keeps the invariant and changes nothing else |
| LinkModel.Remove | controllers/link.controller.js:285 | removing a document keeps the invariant and removes exactly that id |
| LinkModel.LinkStore.FindById | controllers/link.controller.js:239 | the store method returns `ById` of its table |
| LinkModel.LinkStore.FindByAlias | controllers/link.controller.js:97 | the store method returns `ByAlias` of its table, so it looks up the trimmed alias |
| LinkModel.LinkStore.Find | controllers/link.controller.js:38-40 | the store method returns `ByOwner` of its table |
| LinkModel.LinkStore.Save | controllers/link.controller.js:214 | the table becomes `Insert`'s result or stays as it was on a duplicate key |
| LinkModel.LinkStore.SaveLongLink | controllers/link.controller.js:248-249 | the table becomes `Replace`'s result |
| LinkModel.LinkStore.RemoveById | controllers/link.controller.js:285 | the table becomes `Remove`'s result |
| UserModel.NormalizeEmail | models/User.js:41-48 | the stored email has no surrounding whitespace and no upper-case letter |
| UserModel.NormalizedIff | models/User.js:44-46 | an email is normalized exactly when the setters leave it unchanged |
| UserModel.NormalizeEmailIdempotent | models/User.js:44-46 | running the setters again, as on a query filter, changes nothing |
| UserModel.EmailsCollideIgnoringCase | models/User.js:44-47 | emails differing in case or surrounding whitespace map to the same stored key |
| UserModel.InvariantEmailsUnique | models/User.js:45-47 | at most one user per stored email |
| UserModel.ByEmail | controllers/auth.controller.js:23 | `findOne({email})` finds the user whose stored email is the normalized query, if any |
| UserModel.Insert | models/User.js:40-87 | a new user is saved exactly when email and password are present, hashing succeeds and the email is free; the saved password is `hash(plaintext, salt)` |
| UserModel.HashStep | models/User.js:69-87 | an unmodified password is kept; a modified one becomes `hash(plaintext, salt)`; a hashing failure throws |
| UserModel.HashStepAsWritten | models/User.js:69-87 | as written, the hook hashes on every save and fails only when hashing fails |
| UserModel.ResaveAsWrittenBreaksLogin | models/User.js:73-81 | as written, re-saving a user whose password was not modified hashes the hash, and the original password stops matching |
| UserModel.ResaveKeepsLogin | models/User.js:73-81 | with the hook corrected, re-saving keeps the hash and the password still matches |
| UserModel.UserDocument.constructor | models/User.js:41-54 | a new document stores the normalized email and the plaintext, marked as modified |
| UserModel.UserDocument.PreSave | models/User.js:69-87 | the hook's new password and success are `HashStep`'s |
| UserModel.UserDocument.PreSaveAsWritten | models/User.js:69-87 | the hook as written: new password and success are `HashStepAsWritten`'s |
| UserModel.UserStore.FindByEmail | controllers/auth.controller.js:23 | the store method returns `ByEmail` of its table |
| UserModel.UserStore.FindById | controllers/auth.controller.js:129 | the store method returns `ById` of its table |
| UserModel.UserStore.Save | controllers/auth.controller.js:32 | validators, hook and unique index run in order; the table becomes `Insert`'s result or stays unchanged |
| Http.CookieSent | controllers/auth.controller.js:174-176 | the browser sends a cookie exactly while it is set and not expired |
| Http.Response.Send | controllers/auth.controller.js:49-54 | the first reply sent is the one the client gets |
| Http.Response.SetCookie | utils/tokenManager.js:64-67 | setting a cookie replaces that one cookie |
| TokenManager.GenerateToken | utils/tokenManager.js:27-46 | a token is issued exactly when `JWT_SECRET` is set, with `expiresIn` 900 |
| TokenManager.AccessTokenRoundTrip | utils/tokenManager.js:40 | the access token verifies under `JWT_SECRET` to its uid for 900 seconds and as expired afterwards |
| TokenManager.AccessTokenNotARefreshToken | utils/tokenManager.js:40 | an access token is rejected under `JWT_REFRESH` when the secrets differ |
| TokenManager.CookieExpiry | utils/tokenManager.js:64-67 | the cookie expires at the whole second `Date.now() + 2 592 000 000` falls in, which is 2 592 000 seconds after the issuing second |
| TokenManager.RefreshCookieFor | utils/tokenManager.js:54-72 | for a token lifetime given to `jwt.sign`, the cookie is set exactly when `JWT_REFRESH` is set, `httpOnly`, expiring 2 592 000 000 ms after now, rounded down to the whole second the `Expires` attribute keeps |
| TokenManager.RefreshCookieAsWritten | utils/tokenManager.js:54-72 | as written: the cookie is set exactly when `JWT_REFRESH` is set, `httpOnly`, expiring 2 592 000 000 ms after now |
| TokenManager.RefreshTokenOutlivesCookieAsWritten | utils/tokenManager.js:56-66 | as written, the token in the cookie is still valid when the cookie expires, because the millisecond constant is read as seconds |
| TokenManager.RefreshCookie | utils/tokenManager.js:54-72 | corrected: the same cookie, with a 2 592 000-second token lifetime |
| TokenManager.RefreshTokenLivesWithCookie | utils/tokenManager.js:56-66 | corrected: at every instant, the refresh token verifies to its uid exactly when the cookie is still alive, and is expired otherwise |
| TokenManager.RefreshTokenLivesWhileCookieLives | utils/tokenManager.js:56-66 | for any token lifetime of at least 30 days, so for the as-written and the corrected cookie alike, the token verifies to its uid for as long as the cookie lives |
| TokenManager.RefreshTokenNotAnAccessToken | utils/tokenManager.js:60 | a refresh token of any lifetime, as written or corrected, is rejected under `JWT_SECRET` when the secrets differ |
| TokenManager.GenerateRefreshToken | utils/tokenManager.js:54-72 | the response's cookies gain exactly `refreshToken` when signing succeeds and are unchanged otherwise |
| RequireToken.BearerToken | middlewares/requireToken.js:15 | a token is found exactly when the header has a space |
| RequireToken.BearerTokenOf | middlewares/requireToken.js:15 | the token is the second word whatever the first word is |
| RequireToken.Guard | middlewares/requireToken.js:9-40 | the guard either answers 401 or passes the request on unchanged except for a set `uid` |
| RequireToken.GuardPassesIff | middlewares/requireToken.js:13-39 | the request passes exactly when a header is present and its token verifies under `JWT_SECRET`, and then `uid` is the token's uid |
| RequireToken.MissingHeaderRejected | middlewares/requireToken.js:13 | no header gives 401 "No Bearer" |
| RequireToken.OneWordHeaderRejected | middlewares/requireToken.js:15-39 | a header without a space gives 401 "jwt must be provided" |
| RequireToken.IssuedTokenAccepted | middlewares/requireToken.js:25-30 | an issued access token passes with its uid before expiry and gives 401 "jwt expired" afterwards |
| RequireToken.RefreshTokenRejected | middlewares/requireToken.js:25 | a refresh token of any lifetime, as written or corrected, in the header gives 401 "invalid signature" |
| RequireRefreshToken.Guard | middlewares/requireRefreshToken.js:9-31 | the guard either answers 401 or passes the request on unchanged except for a set `uid` |
| RequireRefreshToken.GuardPassesIff | middlewares/requireRefreshToken.js:13-30 | the request passes exactly when the cookie verifies under `JWT_REFRESH`, and then `uid` is the token's uid |
| RequireRefreshToken.MissingCookieRejected | middlewares/requireRefreshToken.js:15 | no cookie gives 401 with the thrown "No existe el Refresh Token." error |
| RequireRefreshToken.IssuedCookieAccepted | middlewares/requireRefreshToken.js:20-25 | the refresh cookie, with the as-written or the corrected token lifetime, passes with its uid for as long as it lives and is refused once it has expired |
| RequireRefreshToken.AccessTokenRejected | middlewares/requireRefreshToken.js:20 | an access token in the cookie gives 401 with "invalid signature" |
| ValidatorManager.ValidationResultExpress | middlewares/validatorManager.js:41-49 | any error answers 400 with the error list; no error passes the request on unchanged |
| ValidatorManager.EmailChain | middlewares/validatorManager.js:64 | the email chain reports no error exactly when the trimmed email is an email |
| ValidatorManager.RepasswordCheck | middlewares/validatorManager.js:70-72 | the custom check fails with the mismatch error unless `repassword` is present and equal to the trimmed password, and with the chain's message when that value is empty (a falsy return) |
| ValidatorManager.RegisterPasswordChain | middlewares/validatorManager.js:67-75 | the trimmed password passes exactly when its length is in 6..12 and `repassword` is present and equal to it; each failed check adds exactly one error |
| ValidatorManager.LoginPasswordChain | middlewares/validatorManager.js:105-107 | the trimmed password passes exactly when its length is in 6..12 |
| ValidatorManager.RegisterPassesIff | middlewares/validatorManager.js:57-84 | registration passes exactly when the email is an email, the trimmed password has 6 to 12 characters and `repassword` is present and equal to it, and then the controller sees the sanitized email and password |
| ValidatorManager.ShortMismatchReportsBoth | middlewares/validatorManager.js:67-75 | a short mismatching password reports both errors, in rule order |
| ValidatorManager.EmptyPasswordReportedTwice | middlewares/validatorManager.js:67-72 | an empty password with an empty `repassword` is reported twice with the password message: by the length check and by the falsy return of the custom check |
| ValidatorManager.AbsentRepasswordRejected | middlewares/validatorManager.js:70-71 | without a `repassword` field registration is refused with the mismatch error |
| ValidatorManager.LoginPassesIff | middlewares/validatorManager.js:92-116 | login passes exactly when email and length rules hold, with sanitized fields |
| ValidatorManager.LoginIgnoresRepassword | middlewares/validatorManager.js:92-116 | login validation does not depend on `repassword` |
| ValidatorManager.LinkPassesIff | middlewares/validatorManager.js:122-157 | a link body passes exactly when the trimmed `longLink` is non-empty and reachable, and it is passed on trimmed |
| ValidatorManager.BlankLinkRejected | middlewares/validatorManager.js:128-130 | a blank `longLink` answers 400 whose first error is the empty-link message |
| ValidatorManager.ParamPassesIff | middlewares/validatorManager.js:171-222 | the `id` parameter passes exactly when it is not all whitespace, and is passed on trimmed and escaped |
| ValidatorManager.EntityAtEscaped | middlewares/validatorManager.js:182-184 | each entity written by `escape` is recognised as that character's entity |
| ValidatorManager.UnescapeEscape | middlewares/validatorManager.js:182-213 | `escape` loses no information: decoding the entities gives the input back |
| ValidatorManager.EscapeRemovesMarkup | middlewares/validatorManager.js:182-184 | no `<`, `>`, quote or `/` survives `escape`; they are rewritten, not rejected |
| ValidatorManager.EscapeUnchangedIff | middlewares/validatorManager.js:182-213 | `escape` leaves a string unchanged exactly when it has no special character |
| ValidatorManager.EscapeKeepsDigits | middlewares/validatorManager.js:204-213 | an id of digits is unchanged by `escape` |
| LinkController.CatchReply | controllers/link.controller.js:102-106 | a thrown error answers 404 without `messageFormat` and 500 with it |
| LinkController.FindParam | controllers/link.controller.js:239 | `findById` finds a link exactly when the parameter is a well-formed id in the collection |
| LinkController.GetLinksOutcome | controllers/link.controller.js:36-46 | 200 with exactly the requester's links, or 500 on a database error |
| LinkController.GetLinkOutcome | controllers/link.controller.js:90-108 | a parameter whose trimmed value is a stored alias answers 200 with that link's `longLink`; any other answers 404; a database error gets `DatabaseReply` |
| LinkController.GetLinkIgnoresPadding | controllers/link.controller.js:90-108 | a path parameter with surrounding whitespace, such as `%20abc123`, gets the same answer as the bare alias |
| LinkController.GetLinkOldOutcome | controllers/link.controller.js:127-168 | 404 if absent, 401 if not the owner, 200 with the link exactly when the requester owns it |
| LinkController.CreateLinkOutcome | controllers/link.controller.js:177-222 | 201 exactly when the save succeeds, adding exactly the trimmed record of the requester under a fresh id; otherwise 500 and nothing added |
| LinkController.CreateLinkKeepsAlias | controllers/link.controller.js:197-216 | the created record's alias is the nanoid alias itself |
| LinkController.UpdateLinkOutcome | controllers/link.controller.js:232-260 | 404 if absent, 401 if not the owner, and only a 200 changes the store, replacing only that link's `longLink` |
| LinkController.DeleteLinkOutcome | controllers/link.controller.js:270-296 | 404 if absent, 401 if not the owner, and only a 200 changes the store, removing exactly that link and returning it |
| LinkController.Run | controllers/link.controller.js:177-296 | any sequence of link requests keeps the collection invariant |
| LinkController.FrameCompose | controllers/link.controller.js:242-285 | the frame property composes across consecutive requests |
| LinkController.CreateFrame | controllers/link.controller.js:197-216 | creating changes no existing record |
| LinkController.UpdateFrame | controllers/link.controller.js:242-249 | an update changes only a record of the requester and never an owner or an alias |
| LinkController.DeleteFrame | controllers/link.controller.js:282-285 | a delete removes only a record of the requester |
| LinkController.ApplyFrame | controllers/link.controller.js:177-296 | each handler changes only records of its caller |
| LinkController.OwnersNeverChange | controllers/link.controller.js:232-296 | over any sequence of requests, owners and aliases never change and only callers' records are touched |
| LinkController.OthersCannotTouch | controllers/link.controller.js:242-285 | a record whose owner makes no request survives any sequence unchanged |
| LinkController.GetLinks | controllers/link.controller.js:36-46 | the method sends `GetLinksOutcome` |
| LinkController.FindByParam | controllers/link.controller.js:239 | the method returns `FindParam` of the store |
| LinkController.GetLink | controllers/link.controller.js:90-108 | the method sends `GetLinkOutcome` |
| LinkController.GetLinkOld | controllers/link.controller.js:127-168 | the method sends `GetLinkOldOutcome` |
| LinkController.CreateLink | controllers/link.controller.js:177-222 | the store and the reply become `CreateLinkOutcome`'s |
| LinkController.UpdateLink | controllers/link.controller.js:232-260 | the store and the reply become `UpdateLinkOutcome`'s |
| LinkController.DeleteLink | controllers/link.controller.js:270-296 | the store and the reply become `DeleteLinkOutcome`'s |
| RedirectController.RedirectLinkOutcome | controllers/redirect.controller.js:21-48 | a redirect to the record's `longLink` exactly when the trimmed alias is stored; 404 when it is not; 500 for an error with `messageFormat` |
| RedirectController.RedirectLink | controllers/redirect.controller.js:21-48 | the method sends `RedirectLinkOutcome` and changes nothing else |
| RedirectController.AgreesWithGetLink | controllers/redirect.controller.js:27-40 | the redirect resolves the same alias to the same target as `getLink`, and fails the same way |
| RedirectController.CreateThenRedirect | controllers/redirect.controller.js:27-40 | a link created with an alias redirects to its trimmed `longLink` |
| AuthController.RegisterOutcome | controllers/auth.controller.js:18-56 | a taken email answers 400 with code 11000 and changes nothing; a new user is added exactly when the save succeeds; 201 with a token for the new id and the refresh cookie exactly when, in addition, signing succeeds; every other answer is 500 "Error del servidor." without a cookie, and a failing database gives that 500 and changes nothing |
| AuthController.SaveOutcome | controllers/auth.controller.js:30-41 | saving and issuing tokens keep the user table invariant |
| AuthController.LoginOutcome | controllers/auth.controller.js:62-108 | 403 for an unknown email and 403 with a different message for a wrong password; 200 with a token and the refresh cookie for the user's id exactly when the password matches and signing succeeds; a matching password with `JWT_SECRET` unset gives 500 "Error del servidor." with the refresh cookie already set; a failing database gives that 500 without a cookie |
| AuthController.InfoUserOutcome | controllers/auth.controller.js:114-140 | 200 with the id and email of `req.uid`, without the password, exactly when the user exists; 500 otherwise |
| AuthController.RefreshTokenOutcome | controllers/auth.controller.js:146-157 | a new 900-second access token that verifies to the guard's uid, exactly when `JWT_SECRET` is set |
| AuthController.RegisterThenLogin | controllers/auth.controller.js:18-108 | after a successful registration, logging in with the same password and any email that normalizes the same succeeds for the new id |
| AuthController.RegisterTwiceRefused | controllers/auth.controller.js:23-25 | registering again with an email that normalizes the same answers 400 and changes nothing |
| AuthController.WrongPasswordRefused | controllers/auth.controller.js:85 | a password other than the registered one answers 403 |
| AuthController.Register | controllers/auth.controller.js:18-56 | the user store, reply and cookies become `RegisterOutcome`'s |
| AuthController.SaveNew | controllers/auth.controller.js:30-41 | the user store, reply and cookies become `SaveOutcome`'s |
| AuthController.IssueTokens | controllers/auth.controller.js:37-41 | 201 with the access token and the refresh cookie, or 500 without a cookie |
| AuthController.Login | controllers/auth.controller.js:62-108 | the reply and cookies become `LoginOutcome`'s and the store is not modified |
| AuthController.InfoUser | controllers/auth.controller.js:114-140 | the reply is `InfoUserOutcome` |
| AuthController.RefreshToken | controllers/auth.controller.js:146-157 | the reply is `RefreshTokenOutcome` and the cookies are not touched |
| AuthController.LoggedOut | controllers/auth.controller.js:174 | after logout the `refreshToken` cookie is the cleared one and every other cookie is kept |
| AuthController.Logout | controllers/auth.controller.js:163-177 | the response's cookies become `LoggedOut` of the old ones and the answer is `{ok: true}` |
| AuthController.LogoutClearsRefreshToken | controllers/auth.controller.js:174-176 | after logout the browser sends no usable refresh token |
| AuthController.LogoutIdempotent | controllers/auth.controller.js:174-176 | a second `Logout` on the cookies the first left changes nothing |
| Chain.SingleGuard | routes/auth.route.js:189 | a one-guard chain answers as its guard |
| Chain.ValidatorKeepsUid | middlewares/validatorManager.js:41-49 | a passing validator does not change `uid` |
| Chain.RunGuardsAppend | routes/link.route.js:105 | running two chains in a row is running their concatenation |
| Chain.ValidatorsKeepUid | routes/link.route.js:91-117 | a chain of validators passes `uid` through unchanged |
| Chain.TokenChainUid | routes/link.route.js:91-117 | a chain that starts with `requireToken` passes only with a valid access token, and the handler sees its uid |
| Chain.FirstRefusalAnswers | routes/link.route.js:105 | the first guard that answers ends the chain with its answer |
| LinkRoute.FirstMatch | routes/link.route.js:44-117 | the route found matches the method and path shape and no earlier route does; nothing is found only when no route matches |
| LinkRoute.ProtectedChains | routes/link.route.js:67-117 | every route except the alias lookup starts with `requireToken`, followed only by validators |
| LinkRoute.PublicLookup | routes/link.route.js:44 | `GET /:nanoLink` runs `getLink` with no token guard |
| LinkRoute.ProtectedNeedsToken | routes/link.route.js:67-117 | without a valid access token a protected route answers 401 and changes nothing |
| LinkRoute.OnlyTokenHolderMutates | routes/link.route.js:44-117 | a request changes only records of its valid token's holder, and nothing without one |
| LinkRoute.ProtectedHandlerFrame | routes/link.route.js:67-117 | a protected handler that runs acts for the token's uid and touches only that holder's records |
| LinkRoute.Serve | routes/link.route.js:44-117 | the store and the reply become `ServeOutcome`'s |
| LinkRoute.Dispatch | routes/link.route.js:67-117 | a protected handler's store and reply become `Apply`'s |
| AuthRoute.RouteKey | routes/auth.route.js:35 | the default `Router()` compares paths with the letters lower-cased and one trailing `/` dropped |
| AuthRoute.FirstMatch | routes/auth.route.js:143-207 | the route found has the requested method and a path the request path reaches, and no earlier route matches; nothing is found only when no route matches |
| AuthRoute.ResolveRoute | routes/auth.route.js:143-207 | each route is reached by its own method and path |
| AuthRoute.ResolveLoosely | routes/auth.route.js:143-207 | each route is reached by any spelling of its path that differs in letter case or in one trailing `/` |
| AuthRoute.LoginSpellings | routes/auth.route.js:157 | `POST /Login` and `POST /login/` both reach `login` |
| AuthRoute.ServeRoute | routes/auth.route.js:143-207 | a request reaching a route gets its first refusing guard's answer, or else the route's controller |
| AuthRoute.ServeOutcome | routes/auth.route.js:143-207 | serving any request keeps the user table invariant |
| AuthRoute.Handle | routes/auth.route.js:143-207 | every controller keeps the user table invariant |
| AuthRoute.LoginRoute | routes/auth.route.js:157-165 | `POST /login`, under any spelling the router accepts, answers the validator's 400, or runs `login` on the sanitized email and password |
| AuthRoute.LoginAccepted | routes/auth.route.js:157-165 | a login body that passes reaches `login` sanitized |
| AuthRoute.ProtectedRoute | routes/auth.route.js:189 | `/protected`, under any spelling the router accepts, answers the guard's 401, or runs `infoUser` for the token's uid |
| AuthRoute.RefreshRoute | routes/auth.route.js:199 | `/refresh`, under any spelling the router accepts, answers the guard's 401, or runs `refreshToken` for the cookie's uid |
| AuthRoute.RegisterOnlyValidBodies | routes/auth.route.js:143-151 | on any spelling of `/register` the router accepts, a user is added only for a body that passes the register validator, and the user is the sanitized email with the hashed trimmed password |
| AuthRoute.LoginGranted | routes/auth.route.js:157-165 | a granted login issued its token and cookie for the user found by the sanitized email |
| AuthRoute.TokenOpensProtected | routes/auth.route.js:189 | a live access token of an existing user opens `/protected` with that user's profile |
| AuthRoute.BearerHeader | middlewares/requireToken.js:15 | the header `Bearer <token>` is scheme, space, token |
| AuthRoute.LoginThenProtected | routes/auth.route.js:157-189 | the token a login grants opens `/protected` for 900 seconds with the logged-in user's profile |
| AuthRoute.CookieOpensRefresh | routes/auth.route.js:199 | a refresh cookie that is still alive, with the as-written or the corrected token lifetime, yields a new access token for its uid |
| AuthRoute.LoginThenRefresh | routes/auth.route.js:157-199 | the cookie a login sets yields, while it lives, a new access token for the logged-in user |
| AuthRoute.LogoutThenRefresh | routes/auth.route.js:199-207 | after logout, on any spellings of the two paths the router accepts, `/refresh` answers 401 with the thrown "No existe el Refresh Token." error and changes nothing |
| AuthRoute.LogoutAlwaysAnswers | routes/auth.route.js:207 | `/logout`, under any spelling the router accepts, has no guard: it always clears the cookie, answers `{ok: true}` and changes nothing |
| AuthRoute.Serve | routes/auth.route.js:143-207 | the user store, reply and cookies become `ServeOutcome`'s |
| AuthRoute.Dispatch | routes/auth.route.js:143-207 | the user store, reply and cookies become `Handle`'s |

## Left out

- `index.js` (Express, CORS, body and cookie parsers, static files, `listen`) and `database/connectdb.js` are not part of this model. `routes/redirect.route.js`, which mounts the redirect controller, is not part of this model; `RedirectController` is modelled on its own.
- Asynchronous execution and concurrency are not modelled. Requests run one at a time, so the lookup-then-insert race in `register` cannot arise; the unique index on `email` still guards insertion.
- The double response in `register`'s catch block is modelled as "the first reply sent sticks" (`Http.Response.Send`). The second `res.status(500).json(...)` at `controllers/auth.controller.js:54` then throws a "headers already sent" error inside the catch block, so the handler's promise is rejected, and `index.js` installs no handler for that rejection. Neither error nor rejection is modelled.
- jsonwebtoken, bcrypt and nanoid are symbolic stand-ins. The model has no HMAC, no one-wayness of hashes and no unforgeability: properties hold for tokens the service itself signs.
- `isEmail`, `normalizeEmail` and the axios reachability check are oracles, not their library or network behaviour.
- The clock, the salt and the nanoid alias are parameters. The logs written with `console.log` are not modelled.
- `trim` strips the ASCII whitespace only, and `lowercase` maps only `A`-`Z`. JavaScript's Unicode whitespace and case mapping are not modelled, and string lengths count characters rather than UTF-16 code units.
- `ValidatorManager.Escape` rewrites the six characters `& " ' < > /` named in `middlewares/validatorManager.js`. The backslash and backtick that newer validator.js versions also rewrite are not modelled.
- Mongoose ObjectIds are natural numbers written in decimal. A malformed id is treated as absent and answered 404, rather than with the cast error Mongoose throws. The order of `find` results is not modelled: `getLinks` answers with a map.
- The `ref: 'User'` on a link's `uid` is an annotation Mongoose does not enforce. The model does not check that a link's owner exists.
- The JSON rendering of thrown error objects is modelled as the error's kind, not its serialised text. A path parameter is the value Express hands the handler after URL decoding; the decoding itself is not modelled.
- The authenticated `GET /:id` route is commented out in `routes/link.route.js` and is absent from `LinkRoute.Routes`. Its controller `getLink_OLD` is modelled on its own (`LinkController.GetLinkOld`).
- A request that no route of a router matches produces no reply (`None`). Express's fall-through to the next router and its default 404 are not modelled.
- GenerateRefreshToken: signs the refresh token with the corrected 2 592 000-second lifetime (`RefreshCookie`), not the 2 592 000 000 seconds `utils/tokenManager.js:56-60` passes. The token as written (`RefreshCookieAsWritten`) is modelled on its own, under Findings. A browser that honours the cookie's expiry gets the same answers from both (`RequireRefreshToken.IssuedCookieAccepted`, `AuthRoute.CookieOpensRefresh`). A client that replays the token after the cookie has expired is refused by the model and accepted by the source.
- RegisterOutcome: its 201 cookie is the corrected `RefreshCookie` (see GenerateRefreshToken above).
- SaveOutcome: its cookie is the corrected `RefreshCookie` (see GenerateRefreshToken above).
- LoginOutcome: its 200 cookie is the corrected `RefreshCookie` (see GenerateRefreshToken above).
- Register: follows `RegisterOutcome`, so it sets the corrected refresh cookie.
- SaveNew: follows `SaveOutcome`, so it sets the corrected refresh cookie.
- IssueTokens: sets the corrected refresh cookie.
- Login: follows `LoginOutcome`, so it sets the corrected refresh cookie.
- LoginGranted: names the corrected `RefreshCookie` as the cookie a login sets.
- LoginThenRefresh: is stated for the cookie `LoginOutcome` sets, which is the corrected one. `AuthRoute.CookieOpensRefresh` states the same answer for the as-written cookie.
- `Http.Database` lets only the first query of a handler throw. A `findById` that succeeds followed by a failing `save()` in `updateLink` or a failing `remove()` in `deleteLink` (`controllers/link.controller.js:249`, `:285`) is not modelled. In the source that failure comes after the ownership check, so a non-owner would still get 401. In the model a faulty database fails the lookup itself, before any ownership check.
- An absent body field other than `repassword` is the empty string, which is what express-validator's sanitizers turn `undefined` into. A non-string JSON value in a body field is not modelled.
- The middlewares' assignment `req.uid = uid` is modelled as a new request value, passed to the next guard.
- `LinkController.Run`, `LinkController.FrameCompose` and the other frame lemmas cover the link handlers only. The user table's invariant is kept by `AuthRoute.ServeOutcome`, but no frame lemma is stated for it: only `register` changes it.

## Findings

| source | as written | input that shows it | evidently intended | confidence | as-written member | corrected member |
|---|---|---|---|---|---|---|
| utils/tokenManager.js:56-66 | the constant 2 592 000 000, meant as 30 days in milliseconds, is also passed as `expiresIn` to `jwt.sign`, which reads a number as seconds; the refresh token lives about 82 years | a refresh token issued at time 0, checked at its cookie's expiry 2 592 000 000 ms, still verifies | the refresh token expires with its cookie (2 592 000 seconds) | not executed | TokenManager.RefreshTokenOutlivesCookieAsWritten | TokenManager.RefreshTokenLivesWithCookie |
| models/User.js:73-81 | when the password is not modified the hook calls `next()` but does not return, so it goes on to hash the stored hash | a user saved with `hash(p, s1)` and re-saved without a password change, with salt `s2`, no longer matches `p` | return right after `next()`, keeping the stored hash | not executed | UserModel.ResaveAsWrittenBreaksLogin | UserModel.ResaveKeepsLogin |
