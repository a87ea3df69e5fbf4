# Lambda Node.js runtime interface client: handler loading, error normalisation and Runtime API requests

A Dafny model of three parts of the AWS Lambda Node.js runtime interface
client, with proofs of what each promises.

- **Handler loading** (`lib/utils/UserFunction.js`). A handler string such as
  `./dir/module.nested.fn` is turned into the user's function, or into one of
  the runtime's classified errors:
  - a string containing `..` is refused;
  - the module root is cut off in front of the basename;
  - the basename is split at its first dot with `/^([^.]*)\.(.*)$/`;
  - the module is loaded through `path.resolve`, `fs.existsSync`,
    `require.resolve` and `require`, and loader failures are classified;
  - the dotted property path is walked with a short-circuiting `&&`;
  - the result must be a function.

  The four foreign calls are fields of an `Env` value. `Load` returns the
  trace of the file-system and loader calls it makes, so "rejected before any
  call" is a statement about an empty trace.
- **Error normalisation** (`lib/Errors/index.js`).
  - `isError`.
  - `toRuntimeResponse`, which maps any thrown value to the
    `{errorType, errorMessage, trace}` record and never throws.
  - `_withEnumerableProperties`, the projection that makes an error's name,
    message, code and stack lines enumerable.
  - `toFormatted`, the tab-prefixed JSON diagnostic.
  - The runtime error classes with their `Runtime.*` names, and
    `UnhandledPromiseRejection`'s `reason` and `promise` fields.
- **The Runtime API client** (`lib/RuntimeClient/RuntimeClient.js`).
  - Class `Client` holds the fields its constructor sets: hostname, port
    (parsed as `parseInt` does) and user agent.
  - Each `post*` call is a function giving the request record it would send
    (method, host, port, path, headers, body), or the failure thrown before
    sending.
  - `nextInvocation` is a method with a loop that folds the HTTP events into
    the body (`data += chunk`) and the promise's outcome. It is proved against
    the specification function `Settlement`.

JavaScript values are modelled by a datatype (module `JsValue`):
- an object keeps its own enumerable properties in the order ECMAScript
  lists own keys: array indices ascending, then the other keys in creation
  order (a new property takes its place in that order);
- it also keeps the properties a read sees that are not own and enumerable
  (an error's `name`, `message`, `stack`);
- flags record whether it is callable, whether it is a native error, and
  which error prototype is on its chain;
- it records what its `toString()` gives.

`JSON.stringify` (module `Json`) is a partial function:
- a `BigInt` makes it throw;
- `undefined` and functions give nothing;
- it comes with a JSON string-literal parser (section 7 of RFC 8259) that
  undoes the quoting.

`Buffer.from(s).length` is the UTF-8 byte count of section 3 of RFC 3629
(module `Utf8`), with a decoder as its partner.

Where the code and the documented behaviour of the system differ, the model
follows the code:
- Only the GET for the next invocation carries a `User-Agent` header; the
  POSTs do not.
- The handler pattern refuses a handler whose text after the first dot
  contains a line terminator, because `.` in `(.*)` does not match one. It
  does not refuse only handlers without a dot.
- `toFormatted` is not total. When both serialisations reach a `BigInt` it
  throws (`Errors.ToFormattedThrows`).
- `_moduleRootAndHandler` cuts the root in front of the *first* occurrence of
  the basename, so the root is the text before that occurrence. For `h/h` it
  is empty instead of `h/`, and it is empty whenever the string begins with
  the basename (`UserFunction.ModuleRootOfRepeatedName`).
  With trailing slashes, and when the basename does not occur earlier in the
  string, root plus handler is the string without those slashes.
- The comment above `_moduleRootAndHandler` gives the root of
  `./somepath/something/module.nestedobj.handler` as `./somepath/something`.
  The code keeps the trailing slash and returns `./somepath/something/`; the
  model does the same. `path.resolve` later makes the two equivalent.

The lemmas in the table below are about these definitions:
- `UserFunction.ResolveHandler` (`_resolveHandler`), defined by `FoldFalsy`,
  `FoldAppend`, `ShortCircuit`, `ReadsPrefix`, `ResolveTwoKeys`,
  `ResolveArrayElement` and `ResolveStringLength`;
- `JsValue.Get` (a property read), defined by `GetElement`, `GetCharacter`
  and `GetOtherKey`, with its own ensures for own properties;
- `Json.Stringify` (`JSON.stringify`), defined by `StringifyThrowsIff`,
  `StringifyStringArray` and `QuoteRoundTrip`;
- `Errors.StringifyReplaced` (`JSON.stringify` with the projecting replacer),
  defined by `StringifyReplacedWithoutErrors`, `StringifyReplacedError` and
  `ProjectionShallower`;
- `RuntimeClient.Settlement` (the outcome of `nextInvocation`'s promise),
  defined by `SettleIndex`, `SettlementSnoc`, `SettlementStable` and
  `SettlementOfChunks`, and proved equal to the loop of `Client.NextInvocation`.

## Model

| member | source | states |
|---|---|---|
| UserFunction.Load | lib/utils/UserFunction.js:123-135 | A string with `..` fails with MalformedHandlerName and an empty call trace. So does a basename the pattern rejects ("Bad handler"). A success is a callable value. The trace is empty exactly when the failure is a MalformedHandlerName. |
| UserFunction.LoadResolves | lib/utils/UserFunction.js:127-135 | Once the module is loaded, the outcome is the handler check of the value the property path resolves to. |
| UserFunction.LoadFailsWithModule | lib/utils/UserFunction.js:83-98 | A module that fails to load fails `load` with the classified failure, after exactly the loader's calls. |
| UserFunction.CheckHandler | lib/utils/UserFunction.js:129-135 | Ok exactly for a callable value, and then that value. A falsy value gives HandlerNotFound "is undefined or not exported". A truthy non-function gives HandlerNotFound "is not a function". |
| UserFunction.LoadHandler | lib/utils/UserFunction.js:126-135 | The trace is the loader's and is never empty. A success is callable. No failure past the split is a MalformedHandlerName. |
| UserFunction.StripTrailingSlashes | lib/utils/UserFunction.js:26 | A prefix of the path that does not end in `/`, and only slashes were removed. |
| UserFunction.LastSegment | lib/utils/UserFunction.js:26 | The longest slash-free suffix: it has no `/`, and the character before it is a `/`. |
| UserFunction.Basename | lib/utils/UserFunction.js:26 | `path.basename`: a slash-free suffix of the path without trailing slashes, preceded by a `/` when shorter. |
| UserFunction.BasenameOccurs | lib/utils/UserFunction.js:26-27 | The basename occurs in the path where the stripped path ends. |
| UserFunction.FirstOccurrence | lib/utils/UserFunction.js:27 | `indexOf` of a string that occurs at `p` is at most `p`. It equals `p` exactly when there is no earlier occurrence. |
| UserFunction.ModuleRootAndHandler | lib/utils/UserFunction.js:25-29 | The handler is the basename and has no `/`. Root plus handler is a prefix of the full string. The basename does not occur anywhere before the root's end, so the root is the text before its first occurrence. It is the whole string without trailing slashes exactly when the basename does not occur earlier. |
| UserFunction.ModuleRootOfRepeatedName | lib/utils/UserFunction.js:27 | For `h/h` the module root is empty: the first occurrence of the basename wins. |
| UserFunction.MatchUnique | lib/utils/UserFunction.js:17 | The handler pattern can match at one dot only. |
| UserFunction.FirstDot | lib/utils/UserFunction.js:17 | -1 exactly when there is no dot. Otherwise the index of a dot with none before it. |
| UserFunction.SplitHandlerString | lib/utils/UserFunction.js:34-40 | A match gives the module, without a dot, and the path, with module + "." + path equal to the input. None (MalformedHandlerName "Bad handler") exactly when the pattern matches at no index. |
| UserFunction.FoldFalsy | lib/utils/UserFunction.js:44-48 | From a falsy value the walk returns that value and reads no key. |
| UserFunction.FoldAppend | lib/utils/UserFunction.js:44-48 | Walking `a + b` walks `a`, then `b` from where it stopped, and reads the keys in that order. |
| UserFunction.ShortCircuit | lib/utils/UserFunction.js:45-46 | Once the walk reaches a falsy value, later keys change nothing and are not read. |
| UserFunction.ReadsPrefix | lib/utils/UserFunction.js:44-48 | The keys read are a prefix of the path's keys, in order. The walk stops early only at a falsy value. |
| UserFunction.ResolveTwoKeys | lib/utils/UserFunction.js:44-48 | A path `a.b` reads `a` on the module's exports and then `b` on what that gave. |
| UserFunction.ResolveArrayElement | lib/utils/UserFunction.js:44-48 | A path through an array element, such as `handlers.0`, resolves to that element. |
| UserFunction.ResolveStringLength | lib/utils/UserFunction.js:44-48 | A path through a non-empty string's `length` resolves to the length, which the handler check refuses as "is not a function". |
| UserFunction.TryRequire | lib/utils/UserFunction.js:55-76 | The probe checks the resolved path, then the path + ".js" only when the first check fails. A loadable path is required directly. Otherwise the module is resolved against `[appRoot, moduleRoot]`: a resolve failure is the result, after exactly the probe and that call; a resolved path is required, and the result is what `require` gives for it. |
| UserFunction.ClassifyLoadFailure | lib/utils/UserFunction.js:87-97 | A SyntaxError becomes UserCodeSyntaxError, and a non-SyntaxError with code MODULE_NOT_FOUND becomes ImportModuleError, each with the value's message. When converting that value to the message throws, the conversion's exception propagates instead. Any other value is rethrown unchanged. null and undefined make the `.code` read throw. |
| UserFunction.LoadUserApp | lib/utils/UserFunction.js:83-98 | The loader's exports, or its failure classified, with the loader's call trace. |
| Errors.ErrorNameInjective | lib/Errors/index.js:120-129 | Different classes have different `Runtime.*` names, so an errorType identifies its class. |
| Errors.ErrorHidden | lib/Errors/index.js:93-98 | An error made by `super(reason)` reads its name, message and stack as given. |
| Errors.NewRuntimeError | lib/Errors/index.js:93-119 | `new C(reason)` exists exactly when the reason converts to a message. It is a native Error instance with the given own properties. It reads its `Runtime.*` name, the message and a V8 stack. Its `toString()` is the stack's header line. |
| Errors.UnhandledRejectionValue | lib/Errors/index.js:112-118 | An unhandled-rejection error keeps `reason` and `promise` as its own enumerable properties, in that order. |
| Errors.IsError | lib/Errors/index.js:15-23 | True exactly for a truthy value whose name, message and stack are non-empty strings; such a value is an object. |
| Errors.ToRuntimeResponse | lib/Errors/index.js:29-56 | An error-like value with a non-empty stack gives its name and message, and a trace of at least one newline-free line whose join is the stack. An error-like value with no usable stack gives the "handled" sentinel. Other values give `typeof` and `toString()`; a value whose `toString()` throws (null and undefined among them) gives the sentinel. In the model, a type or message that is not a string comes only from a native error that `isError` rejects. |
| Errors.ResponseStringifyThrowsIff | lib/Errors/index.js:29-56 | The response's JSON throws exactly when its type or message reaches a BigInt. |
| Errors.NamedErrorResponse | lib/Errors/index.js:31-39 | A value whose name and message are strings gets a response with string type and message. |
| Errors.RuntimeErrorResponse | lib/Errors/index.js:36-38 | A runtime error normalises to errorType "Runtime." + class name, its message, and its stack's lines. |
| Errors.DefaultProps | lib/Errors/index.js:79-83 | The object literal has exactly the keys errorType, errorMessage and code, in that order. |
| Errors.Projection | lib/Errors/index.js:76-88 | The projection has at least the three default properties. Every property is a default, an own property of the error, or the stack's lines under `stack`. |
| Errors.ProjectionDefaults | lib/Errors/index.js:78-86 | When no own key of the error is an array index, the projection starts with errorType, errorMessage and code, and a default not overridden by an own property is kept in its place. |
| Errors.ProjectionIndexFirst | lib/Errors/index.js:78-86 | When the error has an own array-index key, the projection's first key is an array index, not errorType. |
| Errors.WithEnumerableProperties | lib/Errors/index.js:76-92 | A value that is not an Error is returned unchanged. An Error becomes a plain object holding the projection. The result is never an Error. |
| Errors.WithEnumerablePropertiesIdempotent | lib/Errors/index.js:76-92 | Projecting twice is projecting once. |
| Errors.WithEnumerablePropertiesLookup | lib/Errors/index.js:79-86 | Each key of the projection reads: the stack's lines under `stack` when the stack is a string; otherwise the error's own property, or else its name, message or code under errorType, errorMessage or code; nothing for any other key. |
| JsValue.Get | lib/utils/UserFunction.js:44-48 | A read of an own property of an object gives that property's value; a read on a boolean, number or BigInt gives undefined (prototype members are not modelled). |
| JsValue.GetElement | lib/utils/UserFunction.js:44-48 | `a[i]` on an array reads its element at the decimal key of `i`, and `a.length` its length. |
| JsValue.GetCharacter | lib/utils/UserFunction.js:44-48 | `s[i]` on a string reads its `i`-th character, and `s.length` its length. |
| JsValue.GetOtherKey | lib/utils/UserFunction.js:44-48 | On an array or a string, a key other than `length` and the decimal indices reads as undefined. |
| JsValue.SetProp | lib/Errors/index.js:85 | An existing key keeps its place and takes the new value. A new key goes after the array indices smaller than it when it is one, and at the end otherwise. Only the set key reads differently afterwards. |
| JsValue.Assign | lib/Errors/index.js:79-83 | `Object.assign` leaves every key the source lacks reading as before and adds exactly the source's keys. With no array-index key in the source, the target's properties keep their places. |
| JsValue.AssignIndexFirst | lib/Errors/index.js:79-83 | Assigning a source with an array-index key onto a target without one lists an array index first. |
| Errors.ProjectionShallower | lib/Errors/index.js:64 | Every property of a projected error is shallower than the error, so the replacer walk terminates. |
| Errors.StringifyReplacedWithoutErrors | lib/Errors/index.js:64 | When no Error is reachable, the replacer changes nothing in the JSON. |
| Errors.StringifyReplacedError | lib/Errors/index.js:64 | The replacer's JSON of an Error is that of its projection. |
| Errors.ToFormatted | lib/Errors/index.js:62-69 | Every result starts with a tab. The primary replacer JSON is used when it does not throw. When only the primary throws, the result is the tab and the JSON of the runtime response. There is no result exactly when both throw. |
| Errors.ToFormattedDefined | lib/Errors/index.js:66-68 | toFormatted gives a string whenever the response's type and message are free of BigInts. |
| Errors.ProjectionOfBigIntNameThrows | lib/Errors/index.js:64-80 | The replacer's JSON of an Error whose name is a BigInt throws. |
| Errors.ToFormattedThrows | lib/Errors/index.js:62-69 | A native error with a BigInt name and a non-empty stack makes toFormatted itself throw. |
| Errors.ProjectedHead | lib/Errors/index.js:64-81 | The replacer's JSON of an Error with string name and message, no own errorType or errorMessage and no own array-index key, begins with them as errorType and errorMessage. |
| Errors.FormattedHead | lib/Errors/index.js:62-69 | After the tab, the diagnostic of such an Error (same conditions) begins with its name and message as errorType and errorMessage. When the projection cannot be serialised, it begins with the response's type and message instead. |
| Errors.ResponseHead | lib/Errors/index.js:35-46 | The JSON of a response with string type and message begins with errorType and errorMessage members holding them. |
| Errors.RuntimeErrorProjectedType | lib/Errors/index.js:79-80 | A runtime error's projection names its class under errorType unless an own property overrides it. |
| Errors.RuntimeErrorProjectedOwn | lib/Errors/index.js:79-83 | A runtime error's projection keeps every own property other than `stack`. |
| Errors.UnhandledRejectionProjection | lib/Errors/index.js:112-118 | The projection of an unhandled rejection holds its `Runtime.*` name, the reason and the promise. |
| Json.StringifyThrowsIff | lib/RuntimeClient/RuntimeClient.js:176-183 | `JSON.stringify` throws exactly on values that reach a BigInt. |
| Json.StringifyStringArray | lib/Errors/index.js:38 | An array of strings serialises to its quoted elements, comma-separated, in brackets. |
| Json.QuoteRoundTrip | lib/RuntimeClient/RuntimeClient.js:178 | Parsing a JSON string literal gives back the quoted string and the text after it. |
| Json.QuoteInjective | lib/RuntimeClient/RuntimeClient.js:178 | Distinct strings have distinct JSON literals. |
| Strings.JoinSplit | lib/Errors/index.js:38 | Joining the pieces of a split with the separator restores the string. |
| Strings.SplitJoin | lib/RuntimeClient/RuntimeClient.js:45 | Splitting a join of separator-free pieces gives back the pieces. |
| Strings.SplitHead | lib/RuntimeClient/RuntimeClient.js:45 | The first piece of a split is the text before the first separator. There are two pieces or more exactly when the separator occurs. |
| Strings.IndexOf | lib/utils/UserFunction.js:27 | `indexOf`: the first occurrence, or -1 exactly when there is none. |
| Strings.ConcatSnoc | lib/RuntimeClient/RuntimeClient.js:114 | Appending one more chunk appends its text. |
| Strings.NatToStringValue | lib/RuntimeClient/RuntimeClient.js:47 | Reading back the decimal rendering of a number gives the number. |
| Utf8.EncodeLength | lib/RuntimeClient/RuntimeClient.js:149 | The UTF-8 encoding has the summed per-character byte count as its length. |
| Utf8.ByteLengthBounds | lib/RuntimeClient/RuntimeClient.js:149 | The byte count lies between the character count and four times it. It equals the character count exactly for ASCII text. |
| Utf8.DecodeEncode | lib/RuntimeClient/RuntimeClient.js:149 | Decoding the UTF-8 encoding gives back the string. |
| RuntimeClient.UserAgent | lib/RuntimeClient/RuntimeClient.js:32-36 | The user agent starts with "aws-lambda-nodejs/" and has the length of prefix, Node version, "-" and package version. |
| RuntimeClient.UserAgentVersions | lib/RuntimeClient/RuntimeClient.js:32-36 | After the prefix, the user agent is Node's version, "-", and the package's version. When Node's version has no "-", the first "-" separates the two, so both can be read back. |
| RuntimeClient.TrimStart | lib/RuntimeClient/RuntimeClient.js:47 | `parseInt` skips exactly the leading white space and line terminators. |
| RuntimeClient.LeadingDigits | lib/RuntimeClient/RuntimeClient.js:47 | The longest prefix of decimal digits. |
| RuntimeClient.ParseInt10 | lib/RuntimeClient/RuntimeClient.js:47 | `parseInt(s, 10)` is NaN exactly when, after white space and one sign, no digit follows. |
| RuntimeClient.ParseDigits | lib/RuntimeClient/RuntimeClient.js:47 | Digits followed by a non-digit parse to their decimal value. |
| RuntimeClient.ParseDecimal | lib/RuntimeClient/RuntimeClient.js:47 | A number's decimal rendering, followed by a non-digit, parses back to the number. |
| RuntimeClient.HostnameAndPort | lib/RuntimeClient/RuntimeClient.js:45-47 | The hostname is the text before the first ":". With a ":" the port is `parseInt` of the second piece, the text after that ":" up to the next one or the end. Without a ":" the port is NaN. |
| RuntimeClient.HostnameAndPortRoundTrip | lib/RuntimeClient/RuntimeClient.js:45-47 | `host:port` with a colon-free host gives back the host and the port. |
| RuntimeClient.Between | lib/RuntimeClient/RuntimeClient.js:62-90 | When the path has the prefix and the suffix, the text between them rebuilds the path. |
| RuntimeClient.TemplateRoundTrip | lib/RuntimeClient/RuntimeClient.js:62-90 | A template path gives back the text inserted into it. |
| RuntimeClient.InvocationPathsIdentify | lib/RuntimeClient/RuntimeClient.js:62-90 | The invocation ID can be read back from the response and error paths. A response path is never an error path. |
| RuntimeClient.TrySerializeResponse | lib/RuntimeClient/RuntimeClient.js:176-183 | Fails, with "Unable to stringify response body", exactly when the body reaches a BigInt. `undefined` is sent as "null". A string body is sent as a JSON literal that parses back to it. |
| RuntimeClient.MergeHeaders | lib/RuntimeClient/RuntimeClient.js:147-150 | When no caller header is named by an array index, the defaults keep their places at the front. A key the caller does not give reads as the default. With distinct caller keys, every caller key reads as the caller's value. |
| RuntimeClient.SettleIndex | lib/RuntimeClient/RuntimeClient.js:113-126 | The first event that is not data, or the number of events. |
| RuntimeClient.SettlementSnoc | lib/RuntimeClient/RuntimeClient.js:110-126 | One more event settles a pending outcome as that event says, and changes nothing that is settled. |
| RuntimeClient.SettlementStable | lib/RuntimeClient/RuntimeClient.js:116-126 | Once settled, later events do not change the outcome. |
| RuntimeClient.SettlementOfChunks | lib/RuntimeClient/RuntimeClient.js:110-121 | Chunks followed by the end resolve with their in-order concatenation and the response headers untouched. |
| RuntimeClient.ErrorHeaders | lib/RuntimeClient/RuntimeClient.js:71-90 | The error headers have distinct keys: the error-type header with the response's errorType, and for an invocation error the X-Ray cause header. |
| RuntimeClient.Client.constructor | lib/RuntimeClient/RuntimeClient.js:42-52 | The hostname and port come from `host:port` as `split` and `parseInt` give them. The user agent is the formatted one. |
| RuntimeClient.Client.Post | lib/RuntimeClient/RuntimeClient.js:140-169 | A body that does not serialise fails with the fixed message. A body that serialises to nothing fails (Buffer.from(undefined) throws). Otherwise the POST goes to the client's host and port, with the serialised body and the caller's headers winning. Content-Type and Content-Length come first unless a caller header is named by an array index. |
| RuntimeClient.Client.PostInvocationResponse | lib/RuntimeClient/RuntimeClient.js:62-64 | Sent exactly when the response serialises to text, to the invocation's response path, with only the default headers. |
| RuntimeClient.Client.PostResponse | lib/RuntimeClient/RuntimeClient.js:140-150 | A response record is sent exactly when its type and message serialise. The body is the record's JSON and the caller's headers apply. |
| RuntimeClient.Client.PostInitError | lib/RuntimeClient/RuntimeClient.js:71-74 | The normalised error is sent to the init error path exactly when its type and message serialise. Otherwise the call fails with the fixed message. |
| RuntimeClient.Client.PostInvocationError | lib/RuntimeClient/RuntimeClient.js:83-90 | The same for the invocation's error path. |
| RuntimeClient.Client.NextInvocationRequest | lib/RuntimeClient/RuntimeClient.js:98-107 | A GET to the next-invocation path on the client's host and port, whose only header is the user agent. |
| RuntimeClient.Client.NextInvocation | lib/RuntimeClient/RuntimeClient.js:97-129 | Sends the next-invocation GET. The loop's outcome is the `Settlement` of the events: pending, resolved with the in-order chunks and headers, or rejected by the first error. |
| RuntimeClient.ContentLength | lib/RuntimeClient/RuntimeClient.js:149 | Content-Length is the UTF-8 byte count of the sent body. That is at least its character count, and equals it exactly for ASCII. |
| RuntimeClient.ResponseBodyHead | lib/RuntimeClient/RuntimeClient.js:140-150 | A response with string type and message is sent, and its body begins with errorType and errorMessage members holding them. |
| RuntimeClient.InitErrorHeaders | lib/RuntimeClient/RuntimeClient.js:72-73 | A sent init error carries the response's errorType in the error-type header. |
| RuntimeClient.InvocationErrorHeaders | lib/RuntimeClient/RuntimeClient.js:84-89 | A sent invocation error carries the errorType header and the X-Ray cause it was given. |
| RuntimeClient.InitErrorHead | lib/RuntimeClient/RuntimeClient.js:71-74 | An init error with string type and message is sent with that type in the header, and its body begins with the type and message. |
| RuntimeClient.InitErrorNamesClass | lib/RuntimeClient/RuntimeClient.js:71-74 | A runtime error reported at init is sent with its `Runtime.*` name as the error type, in the header and at the head of the body. |

## Left out

- HTTP itself is not modelled: `http.request`, the keep-alive agent with one socket, the response callbacks of `_post`, the `throw e` inside event handlers, and the Promise plumbing. No network effect exists in a proof. The request records and `nextInvocation`'s event fold stand for them.
- `response.setEncoding("utf-8")` is not modelled. Chunks arrive as strings already decoded.
- `path.resolve`, `fs.existsSync`, `require.resolve` and `require` are fields of `Env`. They are foreign calls, so their behaviour is a parameter.
- `XRayError.toFormatted` is not part of this model. The X-Ray cause text is a parameter of `PostInvocationError`.
- `process.version` and the package's version are parameters of `UserAgent` and the constructor. They are environment lookups.
- `lib/Common/index.js` is not modelled. It holds only header-name constants, none of which the core files use.
- JavaScript numbers are integers in the model. Floating point, NaN in values, `toJSON` methods, getters and cyclic objects are not represented; a `BigInt` is the one value that makes `JSON.stringify` throw.
- JsValue.Get: members inherited from a prototype (`toString`, `hasOwnProperty`, `Object.prototype` methods on plain objects, `String.prototype` and `Array.prototype` methods, members of numbers and booleans) read as undefined; only own properties, an array's elements and `length`, and a string's characters and `length` are modelled. A string's `length` and indices count characters, not UTF-16 code units, so they differ from JavaScript for characters outside the Basic Multilingual Plane.
- LoadResolves: a handler path that reaches a prototype member, such as `index.handler.toString` or `index.toString`, resolves to undefined in the model (so `load` fails with HandlerNotFound), while JavaScript finds the inherited function. UserFunction.ResolveHandler has the same gap; paths through own properties, array elements and string characters are modelled.
- ProjectedHead, FormattedHead, ProjectionFirst, ProjectionFirstTwo: the head claims need an error without own array-index keys, because ECMAScript lists such keys before errorType; `ProjectionIndexFirst` states what happens otherwise.
- Json.ParseStringBody: a `\u` escape naming a lone surrogate is refused, because a model character is a whole scalar value. The escapes `JSON.stringify` writes never name one.
- ToRuntimeResponse: a call to `toString()` is modelled as giving a string or throwing. In JavaScript it can return any value: a number becomes a non-string errorMessage, a BigInt makes the later serialisation fail, and `undefined` drops errorMessage from the body. The model represents none of these.
- ToRuntimeResponse: the `|| []` fallback after `split` is dead code, because a split always has at least one piece (`Strings.Split`). It is not modelled separately.
- RuntimeClient.ParseInt10: only NaN is characterised in the contract. The value of a successful parse is stated by `ParseDigits` and `ParseDecimal`, for digits that follow no white space or sign.
- UserFunction.ModuleRootAndHandler: for a string with trailing slashes in which the basename does not occur earlier, root plus handler is the string without those slashes, not the whole string, because `path.basename` drops trailing slashes.
- The invocation loop that uses the client, and the first-completion-wins handling around it, are not part of this model. Only `nextInvocation`'s own settlement is.
