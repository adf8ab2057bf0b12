/** The fields of a printed line, and a reader for whole lines. */
module LineFields {
  import opened LineProtocol

  /** Reads a quoted text up to and including its closing quote, given what follows the opening one. */
  function Quoted(s: string): (r: (string, string))
    ensures |r.1| <= |s|
  {
    if s == [] then ([], [])
    else if s[0] == '"' then (['"'], s[1..])
    else if s[0] == '\\' && |s| > 1 then
      var r := Quoted(s[2..]); (s[..2] + r.0, r.1)
    else
      var r := Quoted(s[1..]); ([s[0]] + r.0, r.1)
  }

  /** Reads a text up to what ends a field. */
  function Bare(s: string): (r: (string, string))
    ensures |r.1| <= |s|
  {
    if s == [] || s[0] == ',' || s[0] == ' ' || s[0] == '\n' then ([], s)
    else
      var r := Bare(s[1..]); ([s[0]] + r.0, r.1)
  }

  function Value(s: string): (r: (string, string))
    ensures |r.1| <= |s|
  {
    if s != [] && s[0] == '"' then
      var r := Quoted(s[1..]); (['"'] + r.0, r.1)
    else Bare(s)
  }

  /** Reads fields, each after a space or a comma. */
  function FieldPairs(s: string): (r: (seq<(string, string)>, string))
    decreases |s|
  {
    if s == [] then ([], s)
    else
      var key := Token(s[1..]);
      if key.1 == [] || key.1[0] != '=' then ([], s)
      else
        var value := Value(key.1[1..]);
        if value.1 != [] && value.1[0] == ',' then
          var r := FieldPairs(value.1);
          ([(key.0, value.0)] + r.0, r.1)
        else ([(key.0, value.0)], value.1)
  }

  /** The first quote that is not escaped is the last character. */
  predicate Terminated(s: string) {
    && s != []
    && if s[0] == '"' then |s| == 1
       else if s[0] == '\\' then |s| > 1 && Terminated(s[2..])
       else Terminated(s[1..])
  }

  /** What a field prints is well formed: a bare text with nothing that ends a field, as numbers and truth
      values are, or a quoted one. */
  predicate WellPrinted(text: string) {
    && text != []
    && if text[0] == '"' then Terminated(text[1..])
       else forall i :: 0 <= i < |text| ==> text[i] != ',' && text[i] != ' ' && text[i] != '\n'
  }

  /** The fields a line shows: the printable ones, in the order of the keys. */
  function Shown(fields: map<string, Field>, keys: seq<string>): seq<(string, string)>
    requires forall k :: k in keys ==> k in fields
  {
    if keys == [] then []
    else
      var n := |keys| - 1;
      Shown(fields, keys[..n])
      + match fields[keys[n]] case Unsupported => [] case Printed(text) => [(keys[n], text)]
  }

  function FieldText(pair: (string, string)): string {
    "," + (EscapeKey(pair.0) + ("=" + pair.1))
  }

  function Joined(pairs: seq<(string, string)>): string {
    if pairs == [] then "" else FieldText(pairs[0]) + Joined(pairs[1..])
  }

  lemma {:induction false} JoinedAppend(pairs: seq<(string, string)>, x: (string, string))
    ensures Joined(pairs + [x]) == Joined(pairs) + FieldText(x)
  {
    if pairs == [] {
      assert [] + [x] == [x];
      JoinedOne(x);
    } else {
      var first, rest := pairs[0], pairs[1..];
      JoinedAppend(rest, x);
      assert pairs + [x] == [first] + (rest + [x]);
      JoinedFirst(first, rest + [x]);
      Associative(FieldText(first), Joined(rest), FieldText(x));
    }
  }

  lemma JoinedFirst(x: (string, string), rest: seq<(string, string)>)
    ensures Joined([x] + rest) == FieldText(x) + Joined(rest)
  {
    assert ([x] + rest)[1..] == rest;
  }

  lemma JoinedOne(x: (string, string))
    ensures Joined([x]) == FieldText(x)
  {
    assert [x][1..] == [];
    assert FieldText(x) + "" == FieldText(x);
  }

  /** The printed fields are the shown ones, joined by commas and begun by a space. */
  lemma {:induction false} FieldsAreShown(fields: map<string, Field>, keys: seq<string>)
    requires forall k :: k in keys ==> k in fields
    ensures Shown(fields, keys) == [] <==> FieldsText(fields, keys) == ""
    ensures Shown(fields, keys) != [] ==> FieldsText(fields, keys) == " " + Joined(Shown(fields, keys))[1..]
  {
    if keys == [] {
    } else {
      var n := |keys| - 1;
      var before := Shown(fields, keys[..n]);
      FieldsAreShown(fields, keys[..n]);
      match fields[keys[n]]
      case Unsupported => assert before + [] == before;
      case Printed(text) =>
        JoinedAppend(before, (keys[n], text));
        JoinedStarts(before);
        OneMoreField(FieldsText(fields, keys[..n]), Joined(before), EscapeKey(keys[n]), text, before == []);
    }
  }

  lemma JoinedStarts(pairs: seq<(string, string)>)
    ensures if pairs == [] then Joined(pairs) == "" else Joined(pairs) != "" && Joined(pairs)[0] == ','
  {
  }

  lemma OneMoreField(printed: string, joined: string, key: string, text: string, first: bool)
    requires if first then printed == "" && joined == "" else joined != "" && printed == " " + joined[1..]
    ensures printed + (if printed == "" then " " else ",") + key + "=" + text
              == " " + (joined + ("," + (key + ("=" + text))))[1..]
  {
  }

  // ---------------------------------------------------------------- values read back

  lemma {:induction false} BareReads(text: string, rest: string)
    requires forall i :: 0 <= i < |text| ==> text[i] != ',' && text[i] != ' ' && text[i] != '\n'
    requires rest != [] && (rest[0] == ',' || rest[0] == ' ')
    ensures Bare(text + rest) == (text, rest)
  {
    if text == [] {
      assert text + rest == rest;
    } else {
      BareReads(text[1..], rest);
      assert text == [text[0]] + text[1..];
      assert (text + rest)[1..] == text[1..] + rest;
    }
  }

  lemma {:induction false} QuotedReads(s: string, rest: string)
    requires Terminated(s)
    ensures Quoted(s + rest) == (s, rest)
  {
    if s[0] == '"' {
      assert s == ['"'];
      assert (s + rest)[1..] == rest;
    } else if s[0] == '\\' {
      QuotedReads(s[2..], rest);
      assert (s + rest)[2..] == s[2..] + rest && (s + rest)[..2] == s[..2];
      assert s == s[..2] + s[2..];
    } else {
      QuotedReads(s[1..], rest);
      assert (s + rest)[1..] == s[1..] + rest;
      assert s == [s[0]] + s[1..];
    }
  }

  lemma ValueReads(text: string, rest: string)
    requires WellPrinted(text) && rest != [] && (rest[0] == ',' || rest[0] == ' ')
    ensures Value(text + rest) == (text, rest)
  {
    if text[0] == '"' {
      QuotedReads(text[1..], rest);
      assert (text + rest)[1..] == text[1..] + rest;
      assert text == ['"'] + text[1..];
    } else {
      BareReads(text, rest);
    }
  }

  // ---------------------------------------------------------------- fields read back

  ghost predicate KeysClosed(pairs: seq<(string, string)>) {
    forall i :: 0 <= i < |pairs| ==> Closed(pairs[i].0)
  }

  ghost predicate AllWellPrinted(pairs: seq<(string, string)>) {
    forall i :: 0 <= i < |pairs| ==> WellPrinted(pairs[i].1)
  }

  /** Fields, however the first is set off, read back exactly when no name ends in a backslash or contains
      a newline. */
  lemma {:induction false} FieldsReadExactly(sep: char, pairs: seq<(string, string)>, rest: string)
    requires pairs != [] && AllWellPrinted(pairs) && rest != [] && rest[0] == ' '
    ensures FieldPairs([sep] + (Joined(pairs)[1..] + rest)) == (pairs, rest) <==> KeysClosed(pairs)
    decreases |pairs|
  {
    var k, text := pairs[0].0, pairs[0].1;
    var tail := Joined(pairs[1..]) + rest;
    var s := [sep] + (Joined(pairs)[1..] + rest);
    Unfolds(sep, pairs, rest);
    assert WellPrinted(text);
    var afterKey := "=" + (text + tail);
    assert s[1..] == EscapeKey(k) + afterKey;
    if !Closed(k) {
      OpenTokenMisreads(k, afterKey);
      assert FieldPairs(s).0 == [] || FieldPairs(s).0[0].0 != k;
      assert !KeysClosed(pairs);
    } else {
      ClosedTokenReads(k, afterKey);
      assert afterKey[1..] == text + tail;
      TailStarts(pairs[1..], rest);
      ValueReads(text, tail);
      RestReads(s, pairs, rest);
    }
  }

  lemma Unfolds(sep: char, pairs: seq<(string, string)>, rest: string)
    requires pairs != []
    ensures ([sep] + (Joined(pairs)[1..] + rest))[1..] ==
              EscapeKey(pairs[0].0) + ("=" + (pairs[0].1 + (Joined(pairs[1..]) + rest)))
  {
    Regroup(EscapeKey(pairs[0].0), pairs[0].1, Joined(pairs[1..]), rest);
  }

  lemma Regroup(key: string, text: string, more: string, rest: string)
    ensures ("," + (key + ("=" + text)) + more)[1..] + rest == key + ("=" + (text + (more + rest)))
  {
  }

  lemma TailStarts(pairs: seq<(string, string)>, rest: string)
    requires rest != [] && rest[0] == ' '
    ensures var tail := Joined(pairs) + rest;
            tail != [] && tail[0] == if pairs == [] then ' ' else ','
    ensures pairs == [] ==> Joined(pairs) + rest == rest
    ensures pairs != [] ==> Joined(pairs) + rest == [','] + (Joined(pairs)[1..] + rest)
  {
  }

  /** One field read, the others follow. */
  lemma {:induction false} RestReads(s: string, pairs: seq<(string, string)>, rest: string)
    requires pairs != [] && AllWellPrinted(pairs) && rest != [] && rest[0] == ' ' && s != []
    requires var tail := Joined(pairs[1..]) + rest;
             && Closed(pairs[0].0) && Token(s[1..]) == (pairs[0].0, "=" + (pairs[0].1 + tail))
             && Value(pairs[0].1 + tail) == (pairs[0].1, tail)
    ensures FieldPairs(s) == (pairs, rest) <==> KeysClosed(pairs)
    decreases |pairs|, 0
  {
    var k, text := pairs[0].0, pairs[0].1;
    var more := pairs[1..];
    var tail := Joined(more) + rest;
    assert ("=" + (text + tail))[1..] == text + tail;
    TailStarts(more, rest);
    assert pairs == [(k, text)] + more;
    KeysSplit(pairs);
    if more == [] {
      assert pairs == [(k, text)] && KeysClosed(more);
      assert FieldPairs(s) == ([(k, text)], rest);
    } else {
      assert AllWellPrinted(more) by {
        forall i | 0 <= i < |more| ensures WellPrinted(more[i].1) { assert more[i] == pairs[i + 1]; }
      }
      FieldsReadExactly(',', more, rest);
      assert FieldPairs(s) == ([(k, text)] + FieldPairs(tail).0, FieldPairs(tail).1);
      FirstAndRest((k, text), FieldPairs(tail).0, more);
    }
  }

  lemma KeysSplit(pairs: seq<(string, string)>)
    requires pairs != []
    ensures KeysClosed(pairs) <==> Closed(pairs[0].0) && KeysClosed(pairs[1..])
  {
    if KeysClosed(pairs[1..]) && Closed(pairs[0].0) {
      forall i | 0 <= i < |pairs| ensures Closed(pairs[i].0) {
        if i > 0 {
          assert pairs[1..][i - 1] == pairs[i];
        }
      }
    }
    if KeysClosed(pairs) {
      forall i | 0 <= i < |pairs[1..]| ensures Closed(pairs[1..][i].0) {
        assert pairs[1..][i] == pairs[i + 1];
      }
    }
  }

  // ---------------------------------------------------------------- whole lines

  /** The head of a line, and the fields and what follows them. */
  datatype Line = Line(measurement: string, tags: seq<(string, string)>, tail: string,
                       fields: seq<(string, string)>, time: string)

  function ReadLine(s: string): Line {
    var h := ReadHead(s);
    var f := FieldPairs(h.2);
    Line(h.0, h.1, h.2, f.0, f.1)
  }

  /** A whole line reads back, as the measurement, the tags that have a value and the printable fields, both
      in the order of their names, and the time, if and only if no measurement, tag name, tag value or field
      name in it ends in a backslash or contains a newline. */
  lemma LineReadsBackExactly(measurement: string, tags: map<string, string>, tagKeys: seq<string>,
                             fields: map<string, Field>, fieldKeys: seq<string>, stamp: string)
    requires Lists(tagKeys, tags) && Lists(fieldKeys, fields) && Shown(fields, fieldKeys) != []
    requires AllWellPrinted(Shown(fields, fieldKeys))
    ensures FieldsText(fields, fieldKeys) != ""
    ensures ReadLine(LineText(measurement, tags, tagKeys, fields, fieldKeys, stamp)) ==
              Line(measurement, Carried(tags, tagKeys), FieldsText(fields, fieldKeys) + (" " + stamp),
                   Shown(fields, fieldKeys), " " + stamp)
            <==> Readable(measurement, tags) && KeysClosed(Shown(fields, fieldKeys))
  {
    TailReadsExactly(fields, fieldKeys, " " + stamp);
    LineReadsExactly(measurement, tags, tagKeys, fields, fieldKeys, stamp);
    HeadThenFields(LineText(measurement, tags, tagKeys, fields, fieldKeys, stamp), measurement,
                   Carried(tags, tagKeys), FieldsText(fields, fieldKeys) + (" " + stamp),
                   Shown(fields, fieldKeys), " " + stamp);
  }

  lemma TailReadsExactly(fields: map<string, Field>, keys: seq<string>, time: string)
    requires (forall k :: k in keys ==> k in fields) && time != [] && time[0] == ' '
    requires Shown(fields, keys) != [] && AllWellPrinted(Shown(fields, keys))
    ensures FieldPairs(FieldsText(fields, keys) + time) == (Shown(fields, keys), time)
            <==> KeysClosed(Shown(fields, keys))
    ensures FieldsText(fields, keys) != ""
  {
    FieldsAreShown(fields, keys);
    FieldsReadExactly(' ', Shown(fields, keys), time);
    SpaceFirst(Joined(Shown(fields, keys))[1..], time);
  }

  lemma SpaceFirst(a: string, b: string)
    ensures " " + a + b == [' '] + (a + b)
  {
  }

  lemma HeadThenFields(s: string, m: string, tags: seq<(string, string)>, rest: string,
                       shown: seq<(string, string)>, time: string)
    ensures ReadLine(s) == Line(m, tags, rest, shown, time) <==>
              ReadHead(s) == (m, tags, rest) && FieldPairs(rest) == (shown, time)
  {
  }

  /** What is shown is every printable field under its name, and nothing else. */
  lemma {:induction false} ShownMembers(fields: map<string, Field>, keys: seq<string>, k: string, text: string)
    requires forall k :: k in keys ==> k in fields
    ensures (k, text) in Shown(fields, keys) <==> k in keys && fields[k] == Printed(text)
  {
    if keys == [] {
    } else {
      var n := |keys| - 1;
      ShownMembers(fields, keys[..n], k, text);
      assert keys == keys[..n] + [keys[n]];
    }
  }
}
