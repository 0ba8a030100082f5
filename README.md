# errx in Dafny

A model of the Go package `errx`, a structured-error library, with proofs about it.

An `*ErrX` carries:
- three tags: `Kind`, `Code` and `Msg`;
- a `Caller` string;
- an ordered list of causes.

Builders change an `*ErrX` in place and return the same pointer. `Error()` renders it as text. `MarshalJSON` renders it as a JSON object, and a nested `*ErrX` cause appears there as a whole object. Two fan-out helpers merge the failures of several tasks into one `*ErrX`.

The model has five modules:

- `Text` covers the text operations the package relies on:
  - `strings.Join`;
  - the quoting shared by `%q` and `encoding/json`;
  - splitting a text into lines;
  - `filepath.Base` and `%d`.
- `Json` is JSON as a datatype, with its compact encoding.
- `View` is a value snapshot of an error and the two views derived from it:
  - the JSON object, proved lossless by a decoder;
  - the `Error()` text, proved line by line.
- `Errx` models errx.go and interfaces.go:
  - Go's `error` interface is the datatype `Err`. Its variants are the nil interface, a plain error, an `*ErrX` (`null` is the typed nil) and an `errors.Join` result.
  - `ErrX` is a class whose methods change its fields.
  - A Go method that is harmless on a nil receiver for some inputs takes `self: ErrX?` at module level. A method that always dereferences its receiver belongs to the class.
  - `MarshalErrors`, `MarshalJSON`, `Error` and `ErrorOf` are mutually recursive methods. Each is proved equal to the `View` function of the error's snapshot.
- `Parallel` models the merge loops of parallel.go. They run over the result slots as they stand after the barrier.

Facts about the code that the model keeps and a reader might not expect:
- `NewErrX(nil)` returns nil, not an empty value (errx.go:23-25).
- `ErrXFrom` passes an `*ErrX` through only when its flag `xs[0]` is true (errx.go:76-82). Without the flag even an `*ErrX` is wrapped in a fresh one.
- `Equals` compares nil-ness of the pointers, not emptiness, and then only `Kind` and `Code` (errx.go:231-239).
- `MarshalJSON` writes one object with the keys `kind`, `code`, `msg`, `errors` and `caller`, in that order (errx.go:177-191).
- The caller is one `fn::file::line` string (errx.go:108-113).
- `ParallelRun` makes the first failure the root and appends the later failures to the root's causes (parallel.go:31-35).
- `ParallelRun2` always builds a fresh root over `errors.Join` of the failures (parallel.go:78-79). Its branch that would reuse an `*ErrX` root (parallel.go:67-71) and the call at parallel.go:81 can never run, because `err` is still nil there.

## Model

| member | source | states |
|---|---|---|
| Errx.ErrX.constructor | errx.go:27 | a new ErrX holds exactly the given causes, no tag and no caller |
| Errx.ErrX.CallOption | errx.go:52-68 | the closure returned by Kind/Code/Msg sets its own tag to its value; the other tags, the causes and the caller stay |
| Errx.OptionSetsOneTag | errx.go:52-68 | an option changes only the tag it names |
| Errx.LastWriteWins | errx.go:129-145 | setting a tag twice leaves the later value; repeating a setting changes nothing |
| Errx.ApplyOptionsConcat | errx.go:87-93 | running two option lists one after the other is running their concatenation |
| Errx.ApplyOptionsLastWins | errx.go:29-31 | after a run of options each tag holds the value of the last option aimed at it, or its old value if none is |
| Errx.NewErrX | errx.go:22-34 | nil exactly for a nil error; otherwise a fresh ErrX whose only cause is e, no caller, and tags given by the options run left to right |
| Errx.NewErrXxx | errx.go:36-44 | a fresh ErrX with exactly one cause, a fresh plain error "...", whatever the options, which set the tags left to right |
| Errx.AssertErrX | errx.go:77 | the type assertion succeeds exactly on an *ErrX (a typed nil included) and then yields that pointer, otherwise nil |
| Errx.ErrXFrom | errx.go:71-85 | nil input gives (nil, false); with xs[0] true an *ErrX comes back as the same pointer with ok; every other input is wrapped as the single cause of a fresh ErrX without tags and ok is false |
| Errx.Apply | errx.go:87-93 | runs the options in order on self and returns self; causes and caller stay; a nil receiver is allowed only without options |
| Errx.ErrX.WithCaller | errx.go:95-117 | sets the caller to base(function)::file::line when the stack lookup finds a frame, otherwise leaves it; returns self, tags and causes unchanged |
| Errx.WithErr | errx.go:119-127 | appends exactly the non-nil arguments in argument order after the existing causes; tags and caller unchanged; returns self; nil receiver only when every argument is nil |
| Errx.NonNilEmpty | errx.go:119-127 | nothing is appended exactly when every argument is nil |
| Errx.NonNilMembers | errx.go:120-123 | what is appended are arguments, none nil, and every non-nil argument is appended |
| Errx.NonNilConcat | errx.go:120-124 | appending in two calls appends the same as one call with the arguments concatenated |
| Errx.ErrX.WithKind | errx.go:129-133 | overwrites the kind only; returns self |
| Errx.ErrX.WithCode | errx.go:135-139 | overwrites the code only; returns self |
| Errx.ErrX.WithMsg | errx.go:141-145 | overwrites the msg only; returns self |
| Errx.ErrX.MarshalErrors | errx.go:147-166 | one entry per cause, in order: a nested *ErrX as its whole JSON object, a typed nil as null, any other cause as the JSON string of its Error() |
| Errx.NumberOfErrors | errx.go:168-174 | 0 on a nil receiver, otherwise the number of causes |
| Errx.ErrX.MarshalJSON | errx.go:176-194 | the JSON object of the snapshot: kind, code, msg, errors (null without causes), caller only when set |
| View.JsonLayout | errx.go:176-194 | the object's fields are kind, code, msg and errors in that order, then caller exactly when it is not empty; errors is null exactly when there is no cause, otherwise one entry per cause |
| View.JsonRoundTrip | errx.go:176-194 | the JSON view is lossless: decoding it gives back the snapshot |
| View.EntryRoundTrip | errx.go:154-160 | every MarshalErrors entry decodes back to its cause |
| Errx.ErrX.As | errx.go:196-205 | true exactly when errors.As holds for some cause; the cause it reports is the first that matches |
| Errx.ErrX.Is | errx.go:207-216 | true exactly when errors.Is holds for some cause and the target; the cause it reports is the first that matches; false on an empty list |
| Errx.ErrX.CopyErrors | errx.go:218-227 | a fresh array holding the causes in order |
| Errx.Equals | errx.go:229-240 | two nils are equal, nil and non-nil are not, two non-nils are equal exactly when kind and code agree, whatever their messages, causes and callers |
| Errx.EqualsIsEquivalence | errx.go:229-240 | Equals is reflexive, symmetric and transitive |
| Errx.IsNil | interfaces.go:13-19 | true exactly when the receiver is nil or has no causes; the tags and the caller play no part |
| Errx.TypedNilTrap | interfaces.go:13-16 | a nil *ErrX stored in an error variable makes the variable non-nil, yet IsNil on the recovered pointer is true |
| Errx.NilStaysEmpty | errx.go:22-25 | NewErrX(nil) followed by WithErr of nil errors is still empty |
| Errx.ErrorOf | errx.go:159 | the Error() text of any error value, proved equal to its snapshot message |
| Errx.Join | parallel.go:79 | errors.Join is nil exactly when every argument is the nil interface, otherwise it wraps the non-nil arguments in order |
| Errx.ErrX.Segments | interfaces.go:41-62 | the header segments: key="value" for each set field in the order kind, code, msg, caller, then errors= |
| Errx.AppendLines | interfaces.go:67-70 | the loop writes one "\n- " line per entry, in entry order |
| Errx.Error | interfaces.go:31-73 | "<nil>" for a nil receiver; otherwise the rendering of the snapshot; the text is "<nil>" exactly when IsNil holds |
| View.RenderNil | interfaces.go:37-39 | the rendering is "<nil>" exactly when there is no cause |
| View.HeaderLayout | interfaces.go:41-65 | the header is the segments kind=, code=, msg=, caller= in that order, each only when set and each followed by "; ", then errors= |
| View.BareHeader | interfaces.go:62-65 | with every tag and the caller empty the header is exactly errors= |
| View.HeaderHasNoNewline | interfaces.go:41-65 | the header is a single line |
| View.KindOnlyHeader | interfaces.go:43-65 | with only a kind set the header is kind="..."; errors= |
| View.RenderLines | interfaces.go:62-70 | the lines of the text are the header and then exactly one "- " line per cause, in cause order, carrying that cause's MarshalErrors entry |
| View.LinesSnoc | interfaces.go:67-70 | each loop round adds exactly one line at the end |
| View.RenderKindTwoMessages | interfaces.go:31-73 | an error with only a kind and two plain causes renders as the header and then the two quoted messages, one per line |
| Text.Quote | interfaces.go:44 | a quoted value is at least its two quotes and holds no raw newline |
| Text.QuoteRoundTrip | interfaces.go:43-57 | quoting loses nothing: the quoted text reads back as the value |
| Json.Encode | errx.go:157-159 | the compact JSON text of an entry is never empty and never holds a raw newline |
| Text.Base | errx.go:110 | filepath.Base is never empty, contains a slash only when it is exactly "/", and leaves a non-empty name without slashes as it is |
| Text.AfterLastSlash | errx.go:110 | the last element of a path is the suffix after its last slash, or the whole path when it has none |
| Text.Decimal | errx.go:108-112 | %d of the line is non-empty, digits after an optional '-', which appears exactly for a negative number |
| Text.DigitsValue | errx.go:108-112 | the digits of a natural number denote it, and begin with 0 only for 0 itself |
| Text.DecimalRoundTrip | errx.go:108-112 | %d loses nothing: reading its text back gives the number |
| Parallel.FailuresSplit | parallel.go:26-36 | the failures of the slots are those of any prefix followed by those of the rest, so a prefix's first failure is the first failure |
| Parallel.FailuresIn | parallel.go:26-32 | every failure is one of the tasks' own results, and every non-nil result is a failure |
| Parallel.FailuresEmpty | parallel.go:26-30 | there is no failure exactly when every slot is nil |
| Parallel.FailuresFirst | parallel.go:26-32 | the first failure is the result in the lowest non-nil slot |
| Parallel.Merge | parallel.go:31-35 | a first failure becomes the root itself; a later one is appended to the root's causes, nothing else changes |
| Parallel.ParallelRun | parallel.go:9-39 | nil exactly when every slot is nil; otherwise the root is the result in the lowest non-nil slot itself, not a copy; the later non-nil slots are appended to its causes in slot order after its own; its cause count grows by the number of failures minus one; only the root is modified |
| Parallel.ParallelRun2 | parallel.go:41-85 | nil exactly when every slot is nil; otherwise a fresh ErrX without tags or caller whose only cause is errors.Join of the non-nil slots in slot order; no task's *ErrX is the root |

## Left out

- Errx.NewErrX: options are only the package's own `Kind`, `Code` and `Msg` (errx.go:52-68). Go's `Option` is any `func(*ErrX)`: a nil option, which panics at errx.go:30, and a caller's own closure, which may call `WithErr` or `WithCaller`, are not covered, so "the only cause is e, no caller" is promised for the package's options only.
- Errx.NewErrXxx: options are only `Kind`, `Code` and `Msg`; with a nil option or a caller's own closure, Go may panic (errx.go:40) or end with more than the one "..." cause, which the model does not cover.
- Errx.Apply: options are only `Kind`, `Code` and `Msg`; a nil option (a panic at errx.go:89) or a caller's own closure, which may change the causes or the caller, is not covered.
- A nil receiver that Go dereferences panics; the model states such calls as preconditions, not as panics. This covers `Apply` with options (errx.go:89), `WithErr` with a non-nil argument (errx.go:122), and `WithKind`, `WithCode`, `WithMsg`, `MarshalErrors`, `MarshalJSON`, `Is`, `As` and `CopyErrors`, which are class methods and so need a receiver.
- Goroutines and `sync.WaitGroup` (parallel.go:15-24, 49-58) are left out because they are concurrency. The helpers take the result slots as they stand after `wg.Wait()`, so the merge depends on slot order only.
- Errx.ErrX.WithCaller: the frame lookup (`runtime.Caller`, `runtime.FuncForPC`) and its `skips` argument become the `CallSite` parameter, because they inspect the running stack.
- Errx.ErrX.WithCaller: Go also accepts a nil receiver when no frame is found; the model always requires a receiver.
- Errx.ErrX.Is: `errors.Is` is a parameter. Its walk through wrapped chains is standard-library behaviour.
- Errx.ErrX.As: `errors.As` is a parameter, and binding the target is not modelled. The ghost `at` index names the cause that would bind it.
- Text.Quote: escapes only the double quote, the backslash and the newline. Both `%q` and `encoding/json` treat these three the same way. The model does not cover:
  - `%q`'s escapes for other non-printable characters;
  - `encoding/json`'s escapes for other control characters and for `<`, `>` and `&`;
  - invalid UTF-8.
- Strings are sequences of characters, not bytes.
- Errx.ErrX.MarshalJSON: is modelled only for causes that do not form a cycle, and so are MarshalErrors, Error and ErrorOf. The ghost bound `n` caps how deeply `*ErrX` values nest. The code does not prevent `x.WithErr(x)`; on such a cycle Go recurses without end, and the model does not cover that case.
- Errors returned by `json.Marshal` are ignored by the source (`msg, _ =`). The JSON datatype cannot produce them.
- `errors.Join` results are compared by value. In Go each call returns a new pointer.
- A plain error is an object with a fixed message. This stands for `errors.New` and for any other error type whose `Error()` returns that message.
- The `Error` interface itself (interfaces.go:8-11) is not modelled as a type. Its two methods are `Errx.Error` and `Errx.IsNil`.
- `archive/` and `tests/` are not part of this model. The archive files are excluded from the Go build, and the tests are stand-alone programs.
