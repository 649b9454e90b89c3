/**
 * The event level of the XML writer that serialization drives: a writer takes
 * start, end, self-closed and text events, one at a time, and a start tag
 * collects attributes before it is written. `Render` turns events into text;
 * escaping is not modelled (no value here holds a character that needs it).
 */
module Xml {
  import opened Wrappers

  /** An attribute as pushed onto a start tag: its (possibly prefixed) key and its value. */
  datatype Attribute = Attribute(key: string, value: string)

  datatype Event =
    | Start(name: string, attrs: seq<Attribute>)
    | End(name: string)
    | Empty(name: string, attrs: seq<Attribute>)
    | Text(content: string)

  /** The failure the writer reports when its underlying sink refuses a write. */
  datatype WriteError = SinkFailed

  /** The one kind of serialization error: a wrapped writer error. */
  datatype Error = Xml(source: WriteError)

  /** What every serialization entry point returns, like Rust's `Result<(), Error>`. */
  type Outcome = Result<(), Error>

  function RenderAttrs(attrs: seq<Attribute>): string
  {
    if attrs == [] then ""
    else " " + attrs[0].key + "=\"" + attrs[0].value + "\"" + RenderAttrs(attrs[1..])
  }

  function RenderEvent(e: Event): string
  {
    match e
    case Start(n, a) => "<" + n + RenderAttrs(a) + ">"
    case End(n) => "</" + n + ">"
    case Empty(n, a) => "<" + n + RenderAttrs(a) + "/>"
    case Text(s) => s
  }

  /** The text a writer produces for a sequence of events. */
  function Render(es: seq<Event>): string
  {
    if es == [] then "" else RenderEvent(es[0]) + Render(es[1..])
  }

  lemma {:induction false} RenderAppend(a: seq<Event>, b: seq<Event>)
    ensures Render(a + b) == Render(a) + Render(b)
  {
    if a == [] {
      assert a + b == b;
    } else {
      assert (a + b)[1..] == a[1..] + b;
      RenderAppend(a[1..], b);
    }
  }

  /** An element without attributes around `c`. */
  lemma RenderAround(name: string, c: seq<Event>)
    ensures Render([Start(name, [])] + c + [End(name)]) == "<" + name + ">" + Render(c) + "</" + name + ">"
  {
    RenderAppend([Start(name, [])] + c, [End(name)]);
    RenderAppend([Start(name, [])], c);
    assert Render([Start(name, [])]) == "<" + name + ">";
    assert Render([End(name)]) == "</" + name + ">";
  }

  // ---------------------------------------------------------------------------
  // A sink that may fail. It fails on the write that would make the number of
  // events written exceed `failAt` (never, when `failAt` is None). A refused
  // event is not written.

  /** Whether `n` more events fit after `written` events into a sink failing at `failAt`. */
  predicate Fits(written: nat, failAt: Option<nat>, n: nat)
  {
    failAt.None? || n == 0 || written + n <= failAt.value
  }

  /** The part of `es` such a sink accepts when it is offered `es` one event at a time. */
  function Admit(written: nat, failAt: Option<nat>, es: seq<Event>): (r: seq<Event>)
    ensures r <= es
    ensures r == es <==> Fits(written, failAt, |es|)
    ensures !Fits(written, failAt, |es|) ==> !Fits(written, failAt, |r| + 1)
  {
    if Fits(written, failAt, |es|) then es
    else if written >= failAt.value then []
    else es[..failAt.value - written]
  }

  /** Offering `a` then `b` is offering `a + b`: `b` is only reached when all of `a` fit. */
  lemma AdmitAppend(written: nat, failAt: Option<nat>, a: seq<Event>, b: seq<Event>)
    ensures Admit(written, failAt, a + b)
         == if Fits(written, failAt, |a|) then a + Admit(written + |a|, failAt, b)
            else Admit(written, failAt, a)
  {
    if a == [] {
      assert a + b == b;
    } else if Fits(written, failAt, |a|) && !Fits(written, failAt, |a| + |b|) {
      assert (a + b)[..failAt.value - written] == a + b[..failAt.value - written - |a|];
    } else if !Fits(written, failAt, |a|) && written < failAt.value {
      assert (a + b)[..failAt.value - written] == a[..failAt.value - written];
    }
  }

  /**
   * A writer went from `before` to `after` by being offered `expected` one
   * event at a time, stopping at the first refused write, and `r` reports
   * whether every event was written.
   */
  predicate Emitted(before: seq<Event>, after: seq<Event>, failAt: Option<nat>, expected: seq<Event>, r: Outcome)
  {
    && after == before + Admit(|before|, failAt, expected)
    && (r.Ok? <==> Fits(|before|, failAt, |expected|))
    && (r.Err? ==> r.error == Xml(SinkFailed))
  }

  /** Offering `a`, then (after it all fit) `b`, is offering `a + b`. */
  lemma EmittedThen(e0: seq<Event>, e1: seq<Event>, e2: seq<Event>, failAt: Option<nat>,
                    a: seq<Event>, b: seq<Event>, r1: Outcome, r2: Outcome)
    requires Emitted(e0, e1, failAt, a, r1) && r1.Ok?
    requires Emitted(e1, e2, failAt, b, r2)
    ensures Emitted(e0, e2, failAt, a + b, r2)
  {
    AdmitAppend(|e0|, failAt, a, b);
  }

  /** Once a write has failed, nothing more is written: the rest of what was to come is dropped. */
  lemma EmittedStop(e0: seq<Event>, e1: seq<Event>, failAt: Option<nat>, a: seq<Event>, b: seq<Event>, r: Outcome)
    requires Emitted(e0, e1, failAt, a, r) && r.Err?
    ensures Emitted(e0, e1, failAt, a + b, r)
  {
    AdmitAppend(|e0|, failAt, a, b);
  }

  /**
   * A failed serialization wrote a proper prefix of what it was to write: in
   * particular never its last event (the closing tag of an element).
   */
  lemma FailureWritesProperPrefix(before: seq<Event>, after: seq<Event>, failAt: Option<nat>, expected: seq<Event>, r: Outcome)
    requires Emitted(before, after, failAt, expected, r) && r.Err?
    ensures |before| <= |after| < |before| + |expected|
    ensures after[..|before|] == before
    ensures after[|before|..] < expected
  {
    var p := Admit(|before|, failAt, expected);
    assert after[..|before|] == before;
    assert after[|before|..] == p;
  }

  /** The writer: the events written so far and the point at which its sink fails. */
  class Writer {
    var events: seq<Event>
    const failAt: Option<nat>

    constructor (failAt: Option<nat>)
      ensures events == [] && this.failAt == failAt
    {
      events := [];
      this.failAt := failAt;
    }

    /** Writes one event, or reports the sink's failure and writes nothing. */
    method WriteEvent(e: Event) returns (r: Outcome)
      modifies this
      ensures events == old(events) + Admit(|old(events)|, failAt, [e])
      ensures r.Ok? <==> Fits(|old(events)|, failAt, 1)
      ensures r.Err? ==> r.error == Xml(SinkFailed)
    {
      if Fits(|events|, failAt, 1) {
        events := events + [e];
        r := Ok(());
      } else {
        r := Err(Xml(SinkFailed));
      }
    }
  }

  /** A start tag being built: its name, and the attributes pushed onto it so far. */
  class StartTag {
    const name: string
    var attrs: seq<Attribute>

    constructor (name: string)
      ensures this.name == name && attrs == []
    {
      this.name := name;
      attrs := [];
    }

    method PushAttribute(a: Attribute)
      modifies this
      ensures attrs == old(attrs) + [a]
    {
      attrs := attrs + [a];
    }
  }

  // ---------------------------------------------------------------------------
  // Well-nestedness: every end tag closes the innermost open element, by name.

  /** The stack of open element names after `es`, or None when an end tag does not match. */
  function Nest(open: seq<string>, es: seq<Event>): Option<seq<string>>
    decreases |es|
  {
    if es == [] then Some(open)
    else match es[0]
      case Start(n, _) => Nest(open + [n], es[1..])
      case End(n) =>
        if |open| > 0 && open[|open| - 1] == n then Nest(open[..|open| - 1], es[1..]) else None
      case _ => Nest(open, es[1..])
  }

  /** Events that close every element they open, each with its own name. */
  predicate Balanced(es: seq<Event>)
  {
    Nest([], es) == Some([])
  }

  lemma {:induction false} NestAppend(open: seq<string>, a: seq<Event>, b: seq<Event>)
    ensures Nest(open, a + b) == match Nest(open, a) case None => None case Some(o) => Nest(o, b)
    decreases |a|
  {
    if a != [] {
      assert (a + b)[1..] == a[1..] + b;
      match a[0]
      case Start(n, _) => NestAppend(open + [n], a[1..], b);
      case End(n) =>
        if |open| > 0 && open[|open| - 1] == n {
          NestAppend(open[..|open| - 1], a[1..], b);
        }
      case Empty(_, _) => NestAppend(open, a[1..], b);
      case Text(_) => NestAppend(open, a[1..], b);
    } else {
      assert a + b == b;
    }
  }

  /** Elements still open underneath do not change how `es` nests. */
  lemma {:induction false} NestBelow(p: seq<string>, open: seq<string>, es: seq<Event>)
    requires Nest(open, es).Some?
    ensures Nest(p + open, es) == Some(p + Nest(open, es).value)
    decreases |es|
  {
    if es != [] {
      match es[0]
      case Start(n, _) =>
        assert p + open + [n] == p + (open + [n]);
        NestBelow(p, open + [n], es[1..]);
      case End(n) =>
        assert (p + open)[..|p + open| - 1] == p + open[..|open| - 1];
        NestBelow(p, open[..|open| - 1], es[1..]);
      case Empty(_, _) => NestBelow(p, open, es[1..]);
      case Text(_) => NestBelow(p, open, es[1..]);
    }
  }

  lemma BalancedAppend(a: seq<Event>, b: seq<Event>)
    requires Balanced(a) && Balanced(b)
    ensures Balanced(a + b)
  {
    NestAppend([], a, b);
  }

  /** Wrapping balanced events in a start tag and the end tag of the same name keeps them balanced. */
  lemma BalancedWrap(n: string, attrs: seq<Attribute>, a: seq<Event>)
    requires Balanced(a)
    ensures Balanced([Start(n, attrs)] + a + [End(n)])
  {
    var es := [Start(n, attrs)] + a + [End(n)];
    assert es[1..] == a + [End(n)];
    assert [] + [n] == [n] + [] == [n];
    NestBelow([n], [], a);
    NestAppend([n], a, [End(n)]);
    assert Nest([n], [End(n)]) == Nest([], []);
  }

  lemma BalancedSingle(e: Event)
    requires !e.Start? && !e.End?
    ensures Balanced([e])
  {
  }
}
