/**
 * The hostapd configuration text as both controllers build it with `asprintf`:
 * a run of `key=value` lines, each ended by a newline. `Parse` is the reading a
 * consumer of the file makes of it (split at newlines, then at the first `=`);
 * it is the partner against which the rendering is checked.
 */
module HostapdConf {

  datatype Entry = Entry(key: string, value: string)

  function Line(e: Entry): string {
    e.key + "=" + e.value
  }

  /** The text of a configuration: every entry as `key=value` followed by a newline. */
  function Render(es: seq<Entry>): string {
    if es == [] then "" else Line(es[0]) + "\n" + Render(es[1..])
  }

  /** The position of the first `c` in `s`, or `|s|` when there is none. */
  function IndexOf(s: string, c: char): (i: nat)
    ensures i <= |s|
    ensures i < |s| ==> s[i] == c
    ensures forall j :: 0 <= j < i ==> s[j] != c
  {
    if s == [] then 0 else if s[0] == c then 0 else 1 + IndexOf(s[1..], c)
  }

  /** One line split at its first `=`; a line without one is a key with an empty value. */
  function ParseLine(l: string): Entry {
    var k := IndexOf(l, '=');
    if k < |l| then Entry(l[..k], l[k + 1..]) else Entry(l, "")
  }

  /** The entries a reader finds in a text, line by line. */
  function Parse(t: string): seq<Entry>
    decreases |t|
  {
    if t == [] then []
    else
      var i := IndexOf(t, '\n');
      [ParseLine(t[..i])] + (if i < |t| then Parse(t[i + 1..]) else [])
  }

  /** An entry that survives the round trip: no `=` in its key and no newline anywhere. */
  predicate Plain(e: Entry) {
    '=' !in e.key && '\n' !in e.key && '\n' !in e.value
  }

  predicate AllPlain(es: seq<Entry>) {
    forall i :: 0 <= i < |es| ==> Plain(es[i])
  }

  /**
   * The directory hostapd keeps its control sockets in: the `ctrl_interface`
   * both controllers write, and IFACE_DIR, where the Atheros controller
   * looks for the socket.
   */
  const CtrlInterfaceDir := "/data/misc/wifi/hostapd"

  lemma CtrlInterfacePlain()
    ensures Plain(Entry("ctrl_interface", CtrlInterfaceDir))
  {
  }

  lemma IndexOfAfter(a: string, c: char, b: string)
    requires c !in a
    ensures IndexOf(a + [c] + b, c) == |a|
  {
    var s := a + [c] + b;
    assert s[|a|] == c;
    assert forall j :: 0 <= j < |a| ==> s[j] == a[j];
  }

  lemma {:induction false} ParseLineOfLine(e: Entry)
    requires Plain(e)
    ensures ParseLine(Line(e)) == e
  {
    var l := Line(e);
    IndexOfAfter(e.key, '=', e.value);
    assert l == e.key + ['='] + e.value;
    assert l[..|e.key|] == e.key;
    assert l[|e.key| + 1..] == e.value;
  }

  lemma RenderAt(es: seq<Entry>, k: nat)
    requires k < |es|
    ensures Render(es[k..]) == Line(es[k]) + "\n" + Render(es[k + 1..])
  {
    assert es[k..][1..] == es[k + 1..];
  }

  lemma AllPlainAppend(a: seq<Entry>, b: seq<Entry>)
    requires AllPlain(a) && AllPlain(b)
    ensures AllPlain(a + b)
  {
    forall i | 0 <= i < |a + b| ensures Plain((a + b)[i]) {
      if i < |a| {
        assert (a + b)[i] == a[i];
      } else {
        assert (a + b)[i] == b[i - |a|];
      }
    }
  }

  /** Rendering a concatenation renders each part in turn: a base block followed by a security block. */
  lemma {:induction false} RenderAppend(a: seq<Entry>, b: seq<Entry>)
    ensures Render(a + b) == Render(a) + Render(b)
  {
    if a != [] {
      assert (a + b)[1..] == a[1..] + b;
      RenderAppend(a[1..], b);
    } else {
      assert a + b == b;
    }
  }

  lemma LineWithoutNewline(e: Entry)
    requires Plain(e)
    ensures '\n' !in Line(e)
  {
    var l := Line(e);
    forall j | 0 <= j < |l| ensures l[j] != '\n' {
      if j < |e.key| {
        assert l[j] == e.key[j];
      } else if j > |e.key| {
        assert l[j] == e.value[j - |e.key| - 1];
      }
    }
  }

  /** A text whose first line is `l` parses as `l` followed by the parse of the rest. */
  lemma ParseFirstLine(l: string, rest: string)
    requires '\n' !in l
    ensures Parse(l + "\n" + rest) == [ParseLine(l)] + Parse(rest)
  {
    var t := l + "\n" + rest;
    IndexOfAfter(l, '\n', rest);
    assert t[..|l|] == l;
    assert t[|l| + 1..] == rest;
  }

  /** A reader of the rendered text finds exactly the entries that were rendered. */
  lemma {:induction false} ParseRender(es: seq<Entry>)
    requires AllPlain(es)
    ensures Parse(Render(es)) == es
  {
    if es != [] {
      assert Plain(es[0]);
      LineWithoutNewline(es[0]);
      ParseFirstLine(Line(es[0]), Render(es[1..]));
      ParseLineOfLine(es[0]);
      ParseRender(es[1..]);
      assert es == [es[0]] + es[1..];
    }
  }
}
