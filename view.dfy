/** A value snapshot of an ErrX and its causes, with the two text views the
    package derives from it: the JSON object of MarshalJSON (errx.go) and the
    human-readable text of Error() (interfaces.go). Working on a snapshot keeps
    the recursion through nested causes well-founded. */
module View {
  import opened Text
  import opened Json

  /** The fields of an ErrX at one moment, its causes already reduced to what the views need. */
  datatype Snapshot = Snapshot(kind: string, code: string, msg: string, caller: string, causes: seq<Cause>)

  /** A cause as the views see it: an *ErrX is serialised as a whole object, a typed
      nil *ErrX as JSON null, and any other error only through its message. */
  datatype Cause = Message(text: string) | Nested(obj: Snapshot) | NilErrX

  /** MarshalJSON's object: kind, code, msg and errors always, in that order, then
      caller only when it is not empty (`omitempty`). With no causes MarshalErrors
      returns a nil slice, which encoding/json writes as null. */
  function ToJson(s: Snapshot): Json
    decreases s, 1
  {
    var errors :=
      if s.causes == [] then JNull
      else JArray(seq(|s.causes|, i requires 0 <= i < |s.causes| => Entry(s.causes[i])));
    JObject([("kind", JString(s.kind)), ("code", JString(s.code)), ("msg", JString(s.msg)), ("errors", errors)]
            + (if s.caller == "" then [] else [("caller", JString(s.caller))]))
  }

  /** One MarshalErrors entry. */
  function Entry(c: Cause): Json
    decreases c, 0
  {
    match c
    case Message(t) => JString(t)
    case Nested(s) => ToJson(s)
    case NilErrX => JNull
  }

  function Entries(cs: seq<Cause>): (r: seq<Json>)
    ensures |r| == |cs| && forall i :: 0 <= i < |cs| ==> r[i] == Entry(cs[i])
  {
    seq(|cs|, i requires 0 <= i < |cs| => Entry(cs[i]))
  }

  /** The JSON view keeps every field and every cause: which fields appear, in what
      order, and what the errors field holds. */
  lemma JsonLayout(s: Snapshot)
    ensures ToJson(s).JObject?
    ensures var f := ToJson(s).fields;
      && |f| == (if s.caller == "" then 4 else 5)
      && f[0] == ("kind", JString(s.kind))
      && f[1] == ("code", JString(s.code))
      && f[2] == ("msg", JString(s.msg))
      && f[3].0 == "errors"
      && (f[3].1 == JNull <==> s.causes == [])
      && (s.causes != [] ==> f[3].1 == JArray(Entries(s.causes)))
      && (|f| == 5 ==> f[4] == ("caller", JString(s.caller)))
  {
  }

  // Reading a snapshot back from its JSON view.

  function FromJson(j: Json): Maybe<Snapshot>
    decreases j, 1
  {
    match j
    case JObject(f) =>
      if && (|f| == 4 || |f| == 5)
         && f[0].0 == "kind" && f[0].1.JString?
         && f[1].0 == "code" && f[1].1.JString?
         && f[2].0 == "msg" && f[2].1.JString?
         && f[3].0 == "errors"
         && (|f| == 5 ==> f[4].0 == "caller" && f[4].1.JString? && f[4].1.text != "")
      then
        var caller := if |f| == 5 then f[4].1.text else "";
        match CausesFromJson(f[3].1)
        case Just(cs) => Just(Snapshot(f[0].1.text, f[1].1.text, f[2].1.text, caller, cs))
        case Nothing => Nothing
      else Nothing
    case _ => Nothing
  }

  function CausesFromJson(j: Json): Maybe<seq<Cause>>
    decreases j, 0
  {
    match j
    case JNull => Just([])
    case JArray(items) =>
      var decoded := seq(|items|, i requires 0 <= i < |items| => EntryFromJson(items[i]));
      if items != [] && forall i :: 0 <= i < |decoded| ==> decoded[i].Just?
      then Just(seq(|decoded|, i requires 0 <= i < |decoded| && decoded[i].Just? => decoded[i].value))
      else Nothing
    case _ => Nothing
  }

  function EntryFromJson(j: Json): Maybe<Cause>
    decreases j, 2
  {
    match j
    case JString(t) => Just(Message(t))
    case JNull => Just(NilErrX)
    case JObject(_) =>
      (match FromJson(j)
       case Just(s) => Just(Nested(s))
       case Nothing => Nothing)
    case JArray(_) => Nothing
  }

  /** The JSON view is lossless: reading it back gives the snapshot it came from. */
  lemma {:induction false} JsonRoundTrip(s: Snapshot)
    ensures FromJson(ToJson(s)) == Just(s)
    decreases s, 1
  {
    JsonLayout(s);
    if s.causes != [] {
      forall i | 0 <= i < |s.causes|
        ensures EntryFromJson(Entry(s.causes[i])) == Just(s.causes[i])
      {
        EntryRoundTrip(s.causes[i]);
      }
      var items := Entries(s.causes);
      var decoded := seq(|items|, i requires 0 <= i < |items| => EntryFromJson(items[i]));
      assert seq(|decoded|, i requires 0 <= i < |decoded| && decoded[i].Just? => decoded[i].value) == s.causes;
    }
  }

  lemma {:induction false} EntryRoundTrip(c: Cause)
    ensures EntryFromJson(Entry(c)) == Just(c)
    decreases c, 0
  {
    if c.Nested? {
      JsonRoundTrip(c.obj);
    }
  }

  // The text of Error().

  /** One `key="value"` header segment, present only when the value is not empty;
      `prefix` is the key with its "=". */
  function Tag(prefix: string, value: string): seq<string>
  {
    if value == "" then [] else [prefix + Quote(value)]
  }

  function HeaderParts(s: Snapshot): seq<string>
  {
    Tag("kind=", s.kind) + Tag("code=", s.code) + Tag("msg=", s.msg) + Tag("caller=", s.caller) + ["errors="]
  }

  /** The first line of Error(): the segments joined by "; ". */
  function Header(s: Snapshot): string
  {
    JoinWith(HeaderParts(s), "; ")
  }

  /** One "\n- " line per entry, in order. */
  function Lines(es: seq<Json>): string
  {
    if es == [] then "" else "\n- " + Encode(es[0]) + Lines(es[1..])
  }

  /** Error(): "<nil>" when there is no cause; otherwise the header and then one line
      per MarshalErrors entry. */
  function Render(s: Snapshot): string
  {
    if s.causes == [] then "<nil>" else Header(s) + Lines(Entries(s.causes))
  }

  /** A header segment as it reads in the text, with the separator that follows it. */
  function Segment(prefix: string, value: string): string
  {
    if value == "" then "" else prefix + Quote(value) + "; "
  }

  lemma TagSegment(prefix: string, value: string)
    ensures Terminated(Tag(prefix, value), "; ") == Segment(prefix, value)
  {
  }

  /** The header, written out: kind, code, msg and caller in that fixed order, each
      only when set and each followed by "; ", and always the closing "errors=". */
  lemma HeaderLayout(s: Snapshot)
    ensures Header(s) == Segment("kind=", s.kind) + Segment("code=", s.code) + Segment("msg=", s.msg)
                         + Segment("caller=", s.caller) + "errors="
  {
    var k, c, m, w := Tag("kind=", s.kind), Tag("code=", s.code), Tag("msg=", s.msg), Tag("caller=", s.caller);
    assert HeaderParts(s) == (k + c + m + w) + ["errors="];
    JoinWithLast(k + c + m + w, "errors=", "; ");
    TerminatedConcat(k + c + m, w, "; ");
    TerminatedConcat(k + c, m, "; ");
    TerminatedConcat(k, c, "; ");
    TagSegment("kind=", s.kind);
    TagSegment("code=", s.code);
    TagSegment("msg=", s.msg);
    TagSegment("caller=", s.caller);
  }

  /** With every tag empty the header is exactly "errors=". */
  lemma BareHeader(s: Snapshot)
    requires s.kind == "" && s.code == "" && s.msg == "" && s.caller == ""
    ensures Header(s) == "errors="
  {
    HeaderLayout(s);
  }

  lemma TagHasNoNewline(prefix: string, value: string)
    requires '\n' !in prefix
    ensures forall i :: 0 <= i < |Tag(prefix, value)| ==> '\n' !in Tag(prefix, value)[i]
  {
  }

  lemma HeaderHasNoNewline(s: Snapshot)
    ensures '\n' !in Header(s)
  {
    var k, c, m, w := Tag("kind=", s.kind), Tag("code=", s.code), Tag("msg=", s.msg), Tag("caller=", s.caller);
    TagHasNoNewline("kind=", s.kind);
    TagHasNoNewline("code=", s.code);
    TagHasNoNewline("msg=", s.msg);
    TagHasNoNewline("caller=", s.caller);
    var parts := k + c + m + w + ["errors="];
    assert parts == HeaderParts(s);
    assert forall i :: 0 <= i < |parts| ==> '\n' !in parts[i];
    JoinWithAvoids(parts, "; ", '\n');
  }

  /** Error() is "<nil>" exactly when there is no cause. */
  lemma RenderNil(s: Snapshot)
    ensures Render(s) == "<nil>" <==> s.causes == []
  {
    if s.causes != [] {
      HeaderLayout(s);
      var h := Header(s);
      assert h[|h| - 7..] == "errors=";
      var r := Render(s);
      assert r[..|h|] == h;
      assert |r| >= 7;
      if |r| == 5 {
        assert false;
      }
    }
  }

  /** The "- " lines Error() writes for the entries, one per entry. */
  function Items(es: seq<Json>): seq<string>
  {
    if es == [] then [] else ["- " + Encode(es[0])] + Items(es[1..])
  }

  lemma {:induction false} LinesSplit(es: seq<Json>)
    ensures SplitLines(Lines(es)) == [""] + Items(es)
    decreases |es|
  {
    if es != [] {
      var first := "- " + Encode(es[0]);
      var rest := Lines(es[1..]);
      LinesSplit(es[1..]);
      var tail, items := SplitLines(rest), Items(es[1..]);
      assert tail[0] == "" && tail[1..] == items;
      assert '\n' !in first;
      SplitLinesPrefix(first, rest);
      assert first + tail[0] == first;
      SplitLinesNewline(first + rest);
      assert "\n- " == "\n" + "- ";
      assert Lines(es) == "\n" + (first + rest);
      assert Items(es) == [first] + items;
    }
  }

  /** The lines of Error() for a value with causes: the header, then exactly one line
      per cause in cause order, each "- " followed by that cause's MarshalErrors entry. */
  lemma RenderLines(s: Snapshot)
    requires s.causes != []
    ensures SplitLines(Render(s)) == [Header(s)] + Items(Entries(s.causes))
  {
    var es := Entries(s.causes);
    HeaderHasNoNewline(s);
    LinesSplit(es);
    SplitLinesPrefix(Header(s), Lines(es));
    assert Header(s) + "" == Header(s);
  }

  /** Lines grows one entry at a time, as Error()'s loop writes it. */
  lemma {:induction false} LinesSnoc(es: seq<Json>, e: Json)
    ensures Lines(es + [e]) == Lines(es) + "\n- " + Encode(e)
    decreases |es|
  {
    if es == [] {
      assert es + [e] == [e];
    } else {
      assert (es + [e])[1..] == es[1..] + [e];
      LinesSnoc(es[1..], e);
    }
  }

  lemma LinesTwo(a: Json, b: Json)
    ensures Lines([a, b]) == "\n- " + Encode(a) + "\n- " + Encode(b)
  {
    LinesSnoc([], a);
    LinesSnoc([a], b);
    assert [] + [a] == [a] && [a] + [b] == [a, b];
  }

  /** With only a kind set, the header is that kind and "errors=". */
  lemma KindOnlyHeader(s: Snapshot)
    requires s.kind != "" && s.code == "" && s.msg == "" && s.caller == ""
    ensures Header(s) == "kind=" + Quote(s.kind) + "; errors="
  {
    HeaderLayout(s);
  }

  /** An error with only a kind and two plain causes renders as three lines: the
      quoted kind and "errors=", then each cause's message as a JSON string. */
  lemma RenderKindTwoMessages(s: Snapshot, m1: string, m2: string)
    requires s.kind != "" && s.code == "" && s.msg == "" && s.caller == ""
    requires s.causes == [Message(m1), Message(m2)]
    ensures Render(s) == ("kind=" + Quote(s.kind) + "; errors=") + ("\n- " + Quote(m1) + "\n- " + Quote(m2))
  {
    KindOnlyHeader(s);
    var a, b := JString(m1), JString(m2);
    assert Entries(s.causes) == [a, b];
    LinesTwo(a, b);
    assert Encode(a) == Quote(m1) && Encode(b) == Quote(m2);
  }
}
