/** The structured error of package errx (errx.go and interfaces.go): an ErrX
    carries three tags, a caller string and an ordered list of causes; builders
    change it in place and return the same pointer; Error() and MarshalJSON give
    its two text views. A Go method whose receiver may be nil without a panic is a
    module-level member taking `self: ErrX?`; one that always dereferences its
    receiver is a method of the class (a nil receiver panics in Go). */
module Errx {
  import opened Text
  import opened Json
  import opened View

  /** An error made by errors.New or any other error that is not an *ErrX. It is
      compared by identity, as Go compares the pointers errors.New returns. */
  class Plain {
    const text: string

    constructor (text: string)
      ensures this.text == text
    {
      this.text := text;
    }
  }

  /** A value of Go's `error` interface. `Boxed(null)` is an interface holding a nil
      *ErrX: it is not the nil interface `NilErr`, yet its IsNil is true. */
  datatype Err =
    | NilErr
    | Leaf(plain: Plain)
    | Boxed(x: ErrX?)
    | Joined(parts: seq<Err>)

  /** The type assertion `e.(*ErrX)`: the pointer and whether e holds an *ErrX. */
  function AssertErrX(e: Err): (r: (ErrX?, bool))
    ensures r.1 <==> e.Boxed?
    ensures r.1 ==> r.0 == e.x
    ensures !r.1 ==> r.0 == null
  {
    if e.Boxed? then (e.x, true) else (null, false)
  }

  /** The errors of a list that are not the nil interface, in their order. */
  function NonNil(errs: seq<Err>): (r: seq<Err>)
    ensures |r| <= |errs|
  {
    if errs == [] then []
    else NonNil(errs[..|errs| - 1]) + (if errs[|errs| - 1] == NilErr then [] else [errs[|errs| - 1]])
  }

  /** Nothing is kept exactly when every error of the list is nil. */
  lemma {:induction false} NonNilEmpty(errs: seq<Err>)
    ensures NonNil(errs) == [] <==> forall i :: 0 <= i < |errs| ==> errs[i] == NilErr
    decreases |errs|
  {
    if errs != [] {
      var init := errs[..|errs| - 1];
      NonNilEmpty(init);
      assert forall i :: 0 <= i < |init| ==> init[i] == errs[i];
    }
  }

  /** NonNil keeps exactly the non-nil errors of the list. */
  lemma {:induction false} NonNilMembers(errs: seq<Err>)
    ensures forall i :: 0 <= i < |NonNil(errs)| ==> NonNil(errs)[i] in errs && NonNil(errs)[i] != NilErr
    ensures forall i :: 0 <= i < |errs| && errs[i] != NilErr ==> errs[i] in NonNil(errs)
    decreases |errs|
  {
    if errs != [] {
      var init := errs[..|errs| - 1];
      NonNilMembers(init);
      assert errs == init + [errs[|errs| - 1]];
      assert forall i :: 0 <= i < |init| ==> init[i] == errs[i];
    }
  }

  /** A single non-nil error is kept as is. */
  lemma NonNilSingle(e: Err)
    requires e != NilErr
    ensures NonNil([e]) == [e]
  {
    assert [e][..0] == [];
  }

  lemma NonNilSnoc(errs: seq<Err>, e: Err)
    ensures NonNil(errs + [e]) == NonNil(errs) + (if e == NilErr then [] else [e])
  {
    assert (errs + [e])[..|errs|] == errs;
  }

  /** Filtering splits over concatenation, so it keeps the order of what it keeps. */
  lemma {:induction false} NonNilConcat(a: seq<Err>, b: seq<Err>)
    ensures NonNil(a + b) == NonNil(a) + NonNil(b)
    decreases |b|
  {
    if b == [] {
      assert a + b == a;
    } else {
      var init, last := b[..|b| - 1], b[|b| - 1];
      assert b == init + [last];
      assert a + b == (a + init) + [last];
      NonNilConcat(a, init);
      NonNilSnoc(a + init, last);
      NonNilSnoc(init, last);
    }
  }

  /** errors.Join: the nil interface when every argument is nil, otherwise one error
      wrapping the non-nil arguments in order. */
  function Join(errs: seq<Err>): (r: Err)
    ensures r == NilErr <==> forall i :: 0 <= i < |errs| ==> errs[i] == NilErr
    ensures r != NilErr ==> r == Joined(NonNil(errs))
  {
    NonNilEmpty(errs);
    var kept := NonNil(errs);
    if kept == [] then NilErr else Joined(kept)
  }

  // Options (errx.go:20, 52-68): the closures Kind, Code and Msg, each setting one tag.

  datatype Option = Kind(value: string) | Code(value: string) | Msg(value: string)

  datatype Tags = Tags(kind: string, code: string, msg: string)

  datatype Field = KindField | CodeField | MsgField

  function FieldOf(o: Option): Field
  {
    match o
    case Kind(_) => KindField
    case Code(_) => CodeField
    case Msg(_) => MsgField
  }

  function Get(t: Tags, f: Field): string
  {
    match f
    case KindField => t.kind
    case CodeField => t.code
    case MsgField => t.msg
  }

  /** What calling the option closure does to the tags. */
  function ApplyOption(t: Tags, o: Option): Tags
  {
    match o
    case Kind(v) => t.(kind := v)
    case Code(v) => t.(code := v)
    case Msg(v) => t.(msg := v)
  }

  /** Running the options left to right. */
  function ApplyOptions(t: Tags, options: seq<Option>): Tags
    decreases |options|
  {
    if options == [] then t else ApplyOptions(ApplyOption(t, options[0]), options[1..])
  }

  /** The value the last option aimed at field f sets, or `default` when none does. */
  function LastValue(options: seq<Option>, f: Field, default: string): string
    decreases |options|
  {
    if options == [] then default
    else if FieldOf(options[|options| - 1]) == f then options[|options| - 1].value
    else LastValue(options[..|options| - 1], f, default)
  }

  /** An option sets its own tag and leaves the other two alone. */
  lemma OptionSetsOneTag(t: Tags, o: Option, f: Field)
    ensures Get(ApplyOption(t, o), f) == if FieldOf(o) == f then o.value else Get(t, f)
  {
  }

  /** Setting a tag twice: the later value wins, and repeating a setting changes nothing. */
  lemma LastWriteWins(t: Tags, first: Option, second: Option)
    requires FieldOf(first) == FieldOf(second)
    ensures ApplyOption(ApplyOption(t, first), second) == ApplyOption(t, second)
    ensures ApplyOption(ApplyOption(t, second), second) == ApplyOption(t, second)
  {
  }

  lemma {:induction false} ApplyOptionsSnoc(t: Tags, options: seq<Option>, o: Option)
    ensures ApplyOptions(t, options + [o]) == ApplyOption(ApplyOptions(t, options), o)
    decreases |options|
  {
    if options != [] {
      assert (options + [o])[1..] == options[1..] + [o];
      ApplyOptionsSnoc(ApplyOption(t, options[0]), options[1..], o);
    }
  }

  /** Applying two option lists one after the other is applying their concatenation. */
  lemma {:induction false} ApplyOptionsConcat(t: Tags, a: seq<Option>, b: seq<Option>)
    ensures ApplyOptions(t, a + b) == ApplyOptions(ApplyOptions(t, a), b)
    decreases |a|
  {
    if a == [] {
      assert a + b == b;
    } else {
      assert (a + b)[1..] == a[1..] + b;
      ApplyOptionsConcat(ApplyOption(t, a[0]), a[1..], b);
    }
  }

  /** Each tag ends up with the value of the last option aimed at it; a tag no option
      aims at keeps its value. */
  lemma {:induction false} ApplyOptionsLastWins(t: Tags, options: seq<Option>, f: Field)
    ensures Get(ApplyOptions(t, options), f) == LastValue(options, f, Get(t, f))
    decreases |options|
  {
    if options != [] {
      var init, last := options[..|options| - 1], options[|options| - 1];
      assert options == init + [last];
      ApplyOptionsSnoc(t, init, last);
      ApplyOptionsLastWins(t, init, f);
    }
  }

  /** What runtime.Caller reports for the requested frame, if it finds one. */
  datatype CallSite = NoFrame | Frame(funcName: string, file: string, line: int)

  /** The caller string "fn::file::line", fn being the base name of the function. */
  function CallerText(funcName: string, file: string, line: int): string
  {
    Base(funcName) + "::" + file + "::" + Decimal(line)
  }

  class ErrX {
    var kind: string
    var code: string
    var msg: string
    var errors: seq<Err>
    var caller: string

    /** The composite literal &ErrX{errors: errors}: no tag and no caller. */
    constructor (errors: seq<Err>)
      ensures this.errors == errors
      ensures kind == "" && code == "" && msg == "" && caller == ""
    {
      this.errors := errors;
      kind, code, msg, caller := "", "", "", "";
    }

    function TagsOf(): Tags
      reads this
    {
      Tags(kind, code, msg)
    }

    /** Calling an option closure on this error: it sets its one tag. */
    method CallOption(o: Option)
      modifies this
      ensures TagsOf() == ApplyOption(old(TagsOf()), o)
      ensures errors == old(errors) && caller == old(caller)
    {
      match o {
        case Kind(v) => kind := v;
        case Code(v) => code := v;
        case Msg(v) => msg := v;
      }
    }

    method WithKind(s: string) returns (r: ErrX)
      modifies this
      ensures r == this
      ensures TagsOf() == ApplyOption(old(TagsOf()), Kind(s))
      ensures errors == old(errors) && caller == old(caller)
    {
      kind := s;
      r := this;
    }

    method WithCode(s: string) returns (r: ErrX)
      modifies this
      ensures r == this
      ensures TagsOf() == ApplyOption(old(TagsOf()), Code(s))
      ensures errors == old(errors) && caller == old(caller)
    {
      code := s;
      r := this;
    }

    method WithMsg(s: string) returns (r: ErrX)
      modifies this
      ensures r == this
      ensures TagsOf() == ApplyOption(old(TagsOf()), Msg(s))
      ensures errors == old(errors) && caller == old(caller)
    {
      msg := s;
      r := this;
    }

    /** WithCaller, given what the stack lookup found: the caller string is set only
        when a frame was found. */
    method WithCaller(site: CallSite) returns (r: ErrX)
      modifies this
      ensures r == this
      ensures caller == if site.Frame? then CallerText(site.funcName, site.file, site.line) else old(caller)
      ensures TagsOf() == old(TagsOf()) && errors == old(errors)
    {
      if site.Frame? {
        caller := CallerText(site.funcName, site.file, site.line);
      }
      r := this;
    }

    /** The header segments Error() joins: each set field as key="value" in the
        fixed order kind, code, msg, caller, then "errors=". */
    method Segments() returns (strs: seq<string>)
      ensures strs == HeaderParts(Snapshot(kind, code, msg, caller, []))
    {
      strs := [];
      if kind != "" {
        strs := strs + ["kind=" + Quote(kind)];
      }
      assert strs == Tag("kind=", kind);
      if code != "" {
        strs := strs + ["code=" + Quote(code)];
      }
      assert strs == Tag("kind=", kind) + Tag("code=", code);
      if msg != "" {
        strs := strs + ["msg=" + Quote(msg)];
      }
      assert strs == Tag("kind=", kind) + Tag("code=", code) + Tag("msg=", msg);
      if caller != "" {
        strs := strs + ["caller=" + Quote(caller)];
      }
      assert strs == Tag("kind=", kind) + Tag("code=", code) + Tag("msg=", msg) + Tag("caller=", caller);
      strs := strs + ["errors="];
    }

    /** One JSON entry per cause, in order: an *ErrX cause as its whole object (null
        for a typed nil), any other cause as the JSON string of its message. */
    method MarshalErrors(ghost n: nat) returns (msgs: seq<Json>)
      requires Bounded(Boxed(this), n)
      ensures msgs == Entries(Snap(this, n).causes)
      decreases n, 1
    {
      msgs := [];
      for i := 0 to |errors|
        invariant |msgs| == i
        invariant forall j :: 0 <= j < i ==> msgs[j] == Entry(SnapCause(errors[j], n - 1))
      {
        var e := errors[i];
        var (x, ok) := AssertErrX(e);
        var msg: Json;
        if ok {
          if x == null {
            msg := JNull;
          } else {
            msg := x.MarshalJSON(n - 1);
          }
        } else {
          var text := ErrorOf(e, n - 1);
          msg := JString(text);
        }
        msgs := msgs + [msg];
      }
    }

    /** The JSON object of this error and, recursively, of its *ErrX causes. */
    method MarshalJSON(ghost n: nat) returns (j: Json)
      requires Bounded(Boxed(this), n)
      ensures j == ToJson(Snap(this, n))
      decreases n, 2
    {
      var entries := MarshalErrors(n);
      // MarshalErrors gives a nil slice when there is no cause: encoding/json writes null
      var errorsField := if entries == [] then JNull else JArray(entries);
      var fields := [("kind", JString(kind)), ("code", JString(code)), ("msg", JString(msg)), ("errors", errorsField)];
      if caller != "" {
        fields := fields + [("caller", JString(caller))];
      }
      j := JObject(fields);
      JsonLayout(Snap(this, n));
    }

    /** errors.As over the causes, first to last, stopping at the first cause that
        matches; `errorsAs` stands for errors.As(cause, target) with the caller's
        target, and `at` is the cause that bound the target. */
    method As(errorsAs: Err -> bool) returns (found: bool, ghost at: int)
      ensures found <==> exists i :: 0 <= i < |errors| && errorsAs(errors[i])
      ensures found ==> 0 <= at < |errors| && errorsAs(errors[at])
                        && forall j :: 0 <= j < at ==> !errorsAs(errors[j])
    {
      for i := 0 to |errors|
        invariant forall j :: 0 <= j < i ==> !errorsAs(errors[j])
      {
        if errorsAs(errors[i]) {
          return true, i;
        }
      }
      return false, -1;
    }

    /** errors.Is over the causes, first to last, stopping at the first match;
        `errorsIs` stands for errors.Is. */
    method Is(target: Err, errorsIs: (Err, Err) -> bool) returns (found: bool, ghost at: int)
      ensures found <==> exists i :: 0 <= i < |errors| && errorsIs(errors[i], target)
      ensures found ==> 0 <= at < |errors| && errorsIs(errors[at], target)
                        && forall j :: 0 <= j < at ==> !errorsIs(errors[j], target)
    {
      for i := 0 to |errors|
        invariant forall j :: 0 <= j < i ==> !errorsIs(errors[j], target)
      {
        if errorsIs(errors[i], target) {
          return true, i;
        }
      }
      return false, -1;
    }

    /** A fresh slice holding the causes in order. */
    method CopyErrors() returns (errs: array<Err>)
      ensures fresh(errs)
      ensures errs[..] == errors
    {
      errs := new Err[|errors|];
      for i := 0 to |errors|
        invariant errs[..i] == errors[..i]
      {
        errs[i] := errors[i];
      }
      assert errs[..] == errs[..|errors|];
    }
  }

  // Construction (errx.go:22-44, 71-93, 119-127).

  /** Nil for a nil error; otherwise a new ErrX whose one cause is e, with the
      options run left to right. */
  method NewErrX(e: Err, options: seq<Option>) returns (err: ErrX?)
    ensures e == NilErr <==> err == null
    ensures err != null ==> fresh(err) && err.errors == [e] && err.caller == ""
    ensures err != null ==> err.TagsOf() == ApplyOptions(Tags("", "", ""), options)
  {
    if e == NilErr {
      return null;
    }
    err := new ErrX([e]);
    for i := 0 to |options|
      invariant err.TagsOf() == ApplyOptions(Tags("", "", ""), options[..i])
      invariant err.errors == [e] && err.caller == ""
    {
      ApplyOptionsSnoc(Tags("", "", ""), options[..i], options[i]);
      assert options[..i + 1] == options[..i] + [options[i]];
      err.CallOption(options[i]);
    }
    assert options[..|options|] == options;
  }

  /** A new ErrX whose one cause is a fresh errors.New("...") placeholder, with the
      options run left to right. */
  method NewErrXxx(options: seq<Option>) returns (err: ErrX)
    ensures fresh(err) && |err.errors| == 1 && err.caller == ""
    ensures err.errors[0].Leaf? && fresh(err.errors[0].plain) && err.errors[0].plain.text == "..."
    ensures err.TagsOf() == ApplyOptions(Tags("", "", ""), options)
  {
    var placeholder := new Plain("...");
    err := new ErrX([Leaf(placeholder)]);
    for i := 0 to |options|
      invariant err.TagsOf() == ApplyOptions(Tags("", "", ""), options[..i])
      invariant err.errors == [Leaf(placeholder)] && err.caller == ""
    {
      ApplyOptionsSnoc(Tags("", "", ""), options[..i], options[i]);
      assert options[..i + 1] == options[..i] + [options[i]];
      err.CallOption(options[i]);
    }
    assert options[..|options|] == options;
  }

  /** Normalises an error to an *ErrX. Only with xs[0] == true is an *ErrX passed
      through as is (ok == true, a typed nil included); otherwise e is wrapped as the
      single cause of a new ErrX and ok is false. */
  method ErrXFrom(e: Err, xs: seq<bool>) returns (err: ErrX?, ok: bool)
    ensures e == NilErr ==> err == null && !ok
    ensures e != NilErr && |xs| > 0 && xs[0] && e.Boxed? ==> err == e.x && ok
    ensures e != NilErr && !(|xs| > 0 && xs[0] && e.Boxed?) ==>
              !ok && err != null && fresh(err) && err.errors == [e]
              && err.TagsOf() == Tags("", "", "") && err.caller == ""
  {
    if e == NilErr {
      return null, false;
    }
    if |xs| > 0 && xs[0] {
      var asserted := AssertErrX(e);
      err, ok := asserted.0, asserted.1;
      if !ok {
        err := NewErrX(e, []);
      }
    } else {
      err := NewErrX(e, []);
      ok := false;
    }
  }

  /** Runs the options on self, left to right, and returns self. A nil receiver
      panics in Go as soon as an option runs. */
  method Apply(self: ErrX?, options: seq<Option>) returns (r: ErrX?)
    requires self != null || options == []
    modifies self
    ensures r == self
    ensures self != null ==> self.TagsOf() == ApplyOptions(old(self.TagsOf()), options)
    ensures self != null ==> self.errors == old(self.errors) && self.caller == old(self.caller)
  {
    for i := 0 to |options|
      invariant self != null ==> self.TagsOf() == ApplyOptions(old(self.TagsOf()), options[..i])
      invariant self != null ==> self.errors == old(self.errors) && self.caller == old(self.caller)
    {
      ApplyOptionsSnoc(old(self.TagsOf()), options[..i], options[i]);
      assert options[..i + 1] == options[..i] + [options[i]];
      self.CallOption(options[i]);
    }
    assert options[..|options|] == options;
    r := self;
  }

  /** Appends the arguments that are not the nil interface, in argument order, and
      returns self. A nil receiver is harmless as long as every argument is nil. */
  method WithErr(self: ErrX?, errs: seq<Err>) returns (r: ErrX?)
    requires self != null || NonNil(errs) == []
    modifies self
    ensures r == self
    ensures self != null ==> self.errors == old(self.errors) + NonNil(errs)
    ensures self != null ==> self.TagsOf() == old(self.TagsOf()) && self.caller == old(self.caller)
  {
    NonNilEmpty(errs);
    for i := 0 to |errs|
      invariant self != null ==> self.errors == old(self.errors) + NonNil(errs[..i])
      invariant self != null ==> self.TagsOf() == old(self.TagsOf()) && self.caller == old(self.caller)
    {
      assert errs[..i + 1][..i] == errs[..i];
      if errs[i] != NilErr {
        self.errors := self.errors + [errs[i]];
      }
    }
    assert errs[..|errs|] == errs;
    r := self;
  }

  // Queries (errx.go:168-174, 229-240; interfaces.go:13-19).

  /** 0 for a nil receiver, otherwise the number of causes. */
  function NumberOfErrors(self: ErrX?): (r: nat)
    reads self
    ensures self == null ==> r == 0
    ensures self != null ==> r == |self.errors|
  {
    if self == null then 0 else |self.errors|
  }

  /** Emptiness, safe on a nil receiver: nil or without causes; tags and caller play no part. */
  function IsNil(self: ErrX?): (r: bool)
    reads self
    ensures r <==> NumberOfErrors(self) == 0
  {
    self == null || |self.errors| == 0
  }

  /** Two nils are equal, a nil and a non-nil are not, and two non-nils are equal when
      kind and code agree, whatever their messages, causes and callers. */
  function Equals(self: ErrX?, other: ErrX?): (r: bool)
    reads self, other
    ensures r <==> (self == null && other == null)
                   || (self != null && other != null && self.kind == other.kind && self.code == other.code)
  {
    if self == null && other == null then true
    else if self != null && other != null then self.kind == other.kind && self.code == other.code
    else false
  }

  lemma EqualsIsEquivalence(a: ErrX?, b: ErrX?, c: ErrX?)
    ensures Equals(a, a)
    ensures Equals(a, b) == Equals(b, a)
    ensures Equals(a, b) && Equals(b, c) ==> Equals(a, c)
  {
  }

  // The views (errx.go:147-194, interfaces.go:31-73) over a finite cause tree.

  /** e is not the nil interface and the *ErrX values reachable from it through
      causes and joined errors nest at most n deep (so there is no cycle). */
  ghost predicate Bounded(e: Err, n: nat)
    reads *
    decreases n, e
  {
    match e
    case NilErr => false
    case Leaf(_) => true
    case Boxed(x) => x != null ==> n > 0 && forall i :: 0 <= i < |x.errors| ==> Bounded(x.errors[i], n - 1)
    case Joined(parts) => forall i :: 0 <= i < |parts| ==> Bounded(parts[i], n)
  }

  /** The snapshot of an ErrX: its fields now, and its causes as the views see them. */
  ghost function Snap(x: ErrX, n: nat): Snapshot
    reads *
    requires Bounded(Boxed(x), n)
    decreases n, Boxed(x), 0
  {
    Snapshot(x.kind, x.code, x.msg, x.caller,
             seq(|x.errors|, i requires 0 <= i < |x.errors| && Bounded(x.errors[i], n - 1) reads *
                                => SnapCause(x.errors[i], n - 1)))
  }

  ghost function SnapCause(e: Err, n: nat): Cause
    reads *
    requires Bounded(e, n)
    decreases n, e, 2
  {
    match e
    case Leaf(_) => Message(MessageOf(e, n))
    case Boxed(x) => if x == null then NilErrX else Nested(Snap(x, n))
    case Joined(_) => Message(MessageOf(e, n))
  }

  /** The text e.Error() returns. */
  ghost function MessageOf(e: Err, n: nat): string
    reads *
    requires Bounded(e, n)
    decreases n, e, 1
  {
    match e
    case Leaf(p) => p.text
    case Boxed(x) => if x == null then "<nil>" else Render(Snap(x, n))
    case Joined(parts) =>
      JoinWith(seq(|parts|, i requires 0 <= i < |parts| && Bounded(parts[i], n) reads * => MessageOf(parts[i], n)), "\n")
  }

  /** e.Error() for any error value: a plain error's text, an *ErrX's Error() (nil
      receiver included), and for errors.Join the parts' texts, one per line. */
  method ErrorOf(e: Err, ghost n: nat) returns (s: string)
    requires Bounded(e, n)
    ensures s == MessageOf(e, n)
    decreases n, 3, e
  {
    match e {
      case Leaf(p) =>
        s := p.text;
      case Boxed(x) =>
        s := Error(x, n);
      case Joined(parts) =>
        var texts: seq<string> := [];
        for i := 0 to |parts|
          invariant |texts| == i
          invariant forall j :: 0 <= j < i ==> texts[j] == MessageOf(parts[j], n)
        {
          var t := ErrorOf(parts[i], n);
          texts := texts + [t];
        }
        assert texts == seq(|parts|, i requires 0 <= i < |parts| && Bounded(parts[i], n) reads * => MessageOf(parts[i], n));
        s := JoinWith(texts, "\n");
    }
  }

  /** The loop of Error() that writes one "\n- " line per entry after the header. */
  method AppendLines(header: string, msgs: seq<Json>) returns (s: string)
    ensures s == header + Lines(msgs)
  {
    s := header;
    for i := 0 to |msgs|
      invariant s == header + Lines(msgs[..i])
    {
      LinesSnoc(msgs[..i], msgs[i]);
      assert msgs[..i + 1] == msgs[..i] + [msgs[i]];
      s := s + "\n- " + Encode(msgs[i]);
    }
    assert msgs[..|msgs|] == msgs;
  }

  /** Error(): "<nil>" for a nil receiver or one without causes; otherwise the header
      segments joined by "; " and then one "\n- " line per MarshalErrors entry. */
  method Error(self: ErrX?, ghost n: nat) returns (s: string)
    requires self != null ==> Bounded(Boxed(self), n)
    ensures self == null ==> s == "<nil>"
    ensures self != null ==> s == Render(Snap(self, n))
    ensures s == "<nil>" <==> IsNil(self)
    decreases n, 2
  {
    if self == null || |self.errors| == 0 {
      return "<nil>";
    }
    ghost var view := Snap(self, n);
    assert view.kind == self.kind && view.code == self.code && view.msg == self.msg && view.caller == self.caller;
    assert |view.causes| == |self.errors|;
    var strs := self.Segments();
    assert strs == HeaderParts(view);
    var header := JoinWith(strs, "; ");
    var msgs := self.MarshalErrors(n);
    s := AppendLines(header, msgs);
    RenderNil(view);
  }

  /** A nil *ErrX stored in an error variable: the variable is not nil, the type
      assertion recovers the nil pointer, and IsNil on it is true without a fault. */
  method TypedNilTrap() returns (interfaceIsNil: bool, isNil: bool)
    ensures !interfaceIsNil && isNil
  {
    var x: ErrX? := null;
    var e := Boxed(x);
    interfaceIsNil := e == NilErr;
    var (recovered, _) := AssertErrX(e);
    isNil := IsNil(recovered);
  }

  /** NewErrX(nil) is nil; appending only nil errors to it is harmless; it is empty. */
  method NilStaysEmpty(options: seq<Option>) returns (empty: bool)
    ensures empty
  {
    var x := NewErrX(NilErr, options);
    x := WithErr(x, [NilErr, NilErr]);
    empty := IsNil(x);
  }
}
