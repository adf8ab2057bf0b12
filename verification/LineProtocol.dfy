/** The line printer of influx/influx.go, and a reader for the head of its lines: the measurement and the
    tags, up to the first unescaped space. */
module LineProtocol {
  import Strings

  predicate Special(c: char) {
    c == ',' || c == ' ' || c == '='
  }

  function EscapeKey(s: string): string {
    if s == [] then []
    else (if Special(s[0]) then ['\\', s[0]] else [s[0]]) + EscapeKey(s[1..])
  }

  /** A field as `encodeField` prints it, or one of a type it does not print. */
  datatype Field = Printed(text: string) | Unsupported

  /** One tag; a tag with an empty value is left out. */
  function TagText(key: string, value: string): string {
    if value == "" then "" else "," + EscapeKey(key) + "=" + EscapeKey(value)
  }

  function TagsText(tags: map<string, string>, keys: seq<string>): string
    requires forall k :: k in keys ==> k in tags
  {
    if keys == [] then "" else TagText(keys[0], tags[keys[0]]) + TagsText(tags, keys[1..])
  }

  function Head(measurement: string, tags: map<string, string>, keys: seq<string>): string
    requires forall k :: k in keys ==> k in tags
  {
    EscapeKey(measurement) + TagsText(tags, keys)
  }

  /** The printable fields, the first after a space, the others after commas. */
  function FieldsText(fields: map<string, Field>, keys: seq<string>): string
    requires forall k :: k in keys ==> k in fields
  {
    if keys == [] then ""
    else
      var n := |keys| - 1;
      var before := FieldsText(fields, keys[..n]);
      match fields[keys[n]]
      case Unsupported => before
      case Printed(text) => before + (if before == "" then " " else ",") + EscapeKey(keys[n]) + "=" + text
  }

  ghost predicate Lists<V>(keys: seq<string>, m: map<string, V>) {
    Strings.Ascending(keys) && forall k :: k in keys <==> k in m
  }

  /** The line of one point; a point without a printable field has none. */
  function LineText(measurement: string, tags: map<string, string>, tagKeys: seq<string>,
                    fields: map<string, Field>, fieldKeys: seq<string>, stamp: string): string
    requires (forall k :: k in tagKeys ==> k in tags) && forall k :: k in fieldKeys ==> k in fields
  {
    var printed := FieldsText(fields, fieldKeys);
    if printed == "" then "" else Head(measurement, tags, tagKeys) + printed + " " + stamp
  }

  /** Prints one point; `stamp` is its time in decimal. */
  method Encode(measurement: string, tags: map<string, string>, fields: map<string, Field>, stamp: string)
    returns (line: string)
    ensures exists tagKeys, fieldKeys ::
              Lists(tagKeys, tags) && Lists(fieldKeys, fields) &&
              line == LineText(measurement, tags, tagKeys, fields, fieldKeys, stamp)
  {
    var tagKeys := Strings.SortedKeys(tags.Keys);
    var fieldKeys := Strings.SortedKeys(fields.Keys);
    var b := PrintTags(tags, tagKeys);
    b := EscapeKey(measurement) + b;
    var text, first := PrintFields(fields, fieldKeys);
    line := if first then "" else b + text + " " + stamp;
    assert line == LineText(measurement, tags, tagKeys, fields, fieldKeys, stamp);
    assert Lists(tagKeys, tags) && Lists(fieldKeys, fields);
  }

  method PrintTags(tags: map<string, string>, keys: seq<string>) returns (b: string)
    requires forall k :: k in keys ==> k in tags
    ensures b == TagsText(tags, keys)
  {
    b := "";
    for n := 0 to |keys|
      invariant b == TagsText(tags, keys[..n])
    {
      var t := PrintTag(keys[n], tags[keys[n]]);
      b := b + t;
      TagsTextUpTo(tags, keys, n);
    }
    assert keys[..|keys|] == keys;
  }

  method PrintTag(k: string, v: string) returns (t: string)
    ensures t == TagText(k, v)
  {
    if v == "" {
      return "";
    }
    t := "," + EscapeKey(k) + "=" + EscapeKey(v);
  }

  method PrintFields(fields: map<string, Field>, keys: seq<string>) returns (b: string, first: bool)
    requires forall k :: k in keys ==> k in fields
    ensures b == FieldsText(fields, keys) && (first <==> b == "")
  {
    b, first := "", true;
    for n := 0 to |keys|
      invariant b == FieldsText(fields, keys[..n]) && (first <==> b == "")
    {
      assert keys[..n + 1][..n] == keys[..n];
      match fields[keys[n]] {
        case Unsupported =>
        case Printed(text) =>
          b := b + (if first then " " else ",") + EscapeKey(keys[n]) + "=" + text;
          first := false;
      }
    }
    assert keys[..|keys|] == keys;
  }

  lemma {:induction false} TagsTextAppend(tags: map<string, string>, keys: seq<string>, k: string)
    requires k in tags && forall j :: j in keys ==> j in tags
    ensures TagsText(tags, keys + [k]) == TagsText(tags, keys) + TagText(k, tags[k])
  {
    if keys == [] {
      assert [] + [k] == [k];
      TagsTextOne(tags, k);
    } else {
      var rest := keys[1..];
      TagsTextAppend(tags, rest, k);
      TagsTextFirst(tags, keys[0], rest + [k]);
      assert [keys[0]] + (rest + [k]) == keys + [k];
      Associative(TagText(keys[0], tags[keys[0]]), TagsText(tags, rest), TagText(k, tags[k]));
    }
  }

  lemma TagsTextUpTo(tags: map<string, string>, keys: seq<string>, n: nat)
    requires n < |keys| && forall j :: j in keys ==> j in tags
    ensures TagsText(tags, keys[..n + 1]) == TagsText(tags, keys[..n]) + TagText(keys[n], tags[keys[n]])
  {
    assert keys[..n + 1] == keys[..n] + [keys[n]];
    TagsTextAppend(tags, keys[..n], keys[n]);
  }

  lemma TagsTextFirst(tags: map<string, string>, k: string, rest: seq<string>)
    requires k in tags && forall j :: j in rest ==> j in tags
    ensures TagsText(tags, [k] + rest) == TagText(k, tags[k]) + TagsText(tags, rest)
  {
    assert ([k] + rest)[1..] == rest;
  }

  lemma TagsTextOne(tags: map<string, string>, k: string)
    requires k in tags
    ensures TagsText(tags, [k]) == TagText(k, tags[k])
  {
    assert [k][1..] == [];
    assert TagText(k, tags[k]) + "" == TagText(k, tags[k]);
  }

  lemma Associative(a: string, b: string, c: string)
    ensures a + (b + c) == (a + b) + c
  {
  }

  // ---------------------------------------------------------------- reading a head back

  /** Reads up to the first unescaped separator or the end of the line, removing the escapes: what was
      read, and the rest. */
  function Token(s: string): (r: (string, string))
    ensures |r.1| <= |s|
  {
    if s == [] then ([], [])
    else if s[0] == '\\' && |s| > 1 && Special(s[1]) then
      var r := Token(s[2..]); ([s[1]] + r.0, r.1)
    else if Special(s[0]) || s[0] == '\n' then ([], s)
    else
      var r := Token(s[1..]); ([s[0]] + r.0, r.1)
  }

  function Pairs(s: string): (r: (seq<(string, string)>, string))
    decreases |s|
  {
    if s == [] || s[0] != ',' then ([], s)
    else
      var key := Token(s[1..]);
      if key.1 == [] || key.1[0] != '=' then ([], s)
      else
        var value := Token(key.1[1..]);
        var r := Pairs(value.1);
        ([(key.0, value.0)] + r.0, r.1)
  }

  /** The measurement, the tags in order, and what follows. */
  function ReadHead(s: string): (string, seq<(string, string)>, string) {
    var m := Token(s);
    var r := Pairs(m.1);
    (m.0, r.0, r.1)
  }

  /** The tags a head carries: those with a value, in the order of the keys. */
  function Carried(tags: map<string, string>, keys: seq<string>): seq<(string, string)>
    requires forall k :: k in keys ==> k in tags
  {
    if keys == [] then []
    else (if tags[keys[0]] == "" then [] else [(keys[0], tags[keys[0]])]) + Carried(tags, keys[1..])
  }

  /** Safe to print before a separator: it does not end in a backslash, nor the line. */
  predicate Closed(t: string) {
    '\n' !in t && (t == [] || t[|t| - 1] != '\\')
  }

  predicate Separated(rest: string) {
    rest != [] && Special(rest[0])
  }

  lemma EscapeFirst(t: string, rest: string)
    requires t != []
    ensures var s, tail := EscapeKey(t) + rest, EscapeKey(t[1..]) + rest;
            if Special(t[0]) then |s| >= 2 && s[0] == '\\' && s[1] == t[0] && s[2..] == tail
            else |s| >= 1 && s[0] == t[0] && s[1..] == tail
  {
    var first := if Special(t[0]) then ['\\', t[0]] else [t[0]];
    Prefixed(first, EscapeKey(t[1..]), rest);
  }

  lemma Prefixed(a: string, b: string, c: string)
    ensures ((a + b) + c)[|a|..] == b + c
    ensures forall i :: 0 <= i < |a| ==> ((a + b) + c)[i] == a[i]
  {
  }

  lemma {:induction false} ClosedTokenReads(t: string, rest: string)
    requires Closed(t) && Separated(rest)
    ensures Token(EscapeKey(t) + rest) == (t, rest)
  {
    var s := EscapeKey(t) + rest;
    if t == [] {
      assert s == rest;
    } else {
      ClosedTokenReads(t[1..], rest);
      EscapeFirst(t, rest);
      if !Special(t[0]) {
        if t[0] == '\\' {
          assert t[1..] != [] && !Special(EscapeKey(t[1..])[0]);
        }
      }
      assert t == [t[0]] + t[1..];
    }
  }

  lemma {:induction false} TokenWithinLine(s: string)
    ensures '\n' !in Token(s).0
    decreases |s|
  {
    if s == [] {
    } else if s[0] == '\\' && |s| > 1 && Special(s[1]) {
      TokenWithinLine(s[2..]);
    } else if !Special(s[0]) && s[0] != '\n' {
      TokenWithinLine(s[1..]);
    }
  }

  lemma {:induction false} OpenTokenMisreads(t: string, rest: string)
    requires !Closed(t) && Separated(rest)
    ensures Token(EscapeKey(t) + rest).0 != t
  {
    var s := EscapeKey(t) + rest;
    if '\n' in t {
      TokenWithinLine(s);
    } else if |t| == 1 {
      assert EscapeKey(t[1..]) == [];
      assert s == ['\\'] + rest;
      assert s[1] == rest[0];
      assert Token(s).0[0] == rest[0];
    } else {
      OpenTokenMisreads(t[1..], rest);
      var tail := EscapeKey(t[1..]) + rest;
      EscapeFirst(t, rest);
      if !Special(t[0]) {
        assert !Special(EscapeKey(t[1..])[0]);
      }
      assert Token(s).0 == [t[0]] + Token(tail).0;
      assert ([t[0]] + Token(tail).0)[1..] == Token(tail).0;
    }
  }

  /** Every tag that is printed can be read back. */
  predicate AllClosed(pairs: seq<(string, string)>) {
    forall i :: 0 <= i < |pairs| ==> Closed(pairs[i].0) && Closed(pairs[i].1)
  }

  lemma TagTextSplit(key: string, value: string, rest: string)
    requires value != ""
    ensures TagText(key, value) + rest == "," + (EscapeKey(key) + ("=" + (EscapeKey(value) + rest)))
  {
  }

  lemma TagsSeparated(tags: map<string, string>, keys: seq<string>, rest: string)
    requires (forall k :: k in keys ==> k in tags) && rest != [] && rest[0] == ' '
    ensures Separated(TagsText(tags, keys) + rest)
    decreases |keys|
  {
    if keys == [] {
      assert "" + rest == rest;
    } else if tags[keys[0]] == "" {
      TagsSeparated(tags, keys[1..], rest);
      assert TagsText(tags, keys) == TagsText(tags, keys[1..]);
    } else {
      assert TagsText(tags, keys)[0] == ',';
    }
  }

  /** The tags of a head read back as printed if and only if none of them ends in a
      backslash or contains a newline. */
  lemma {:induction false} TagsReadExactly(tags: map<string, string>, keys: seq<string>, rest: string)
    requires (forall k :: k in keys ==> k in tags) && rest != [] && rest[0] == ' '
    ensures Pairs(TagsText(tags, keys) + rest) == (Carried(tags, keys), rest) <==> AllClosed(Carried(tags, keys))
    decreases |keys|
  {
    if keys == [] {
      assert "" + rest == rest;
    } else {
      var k, v := keys[0], tags[keys[0]];
      TagsReadExactly(tags, keys[1..], rest);
      if v == "" {
        assert TagsText(tags, keys) == TagsText(tags, keys[1..]);
        assert Carried(tags, keys) == Carried(tags, keys[1..]);
      } else {
        TagReadsExactly(tags, keys, rest);
      }
    }
  }

  lemma TagReadsExactly(tags: map<string, string>, keys: seq<string>, rest: string)
    requires (forall k :: k in keys ==> k in tags) && rest != [] && rest[0] == ' '
    requires keys != [] && tags[keys[0]] != ""
    requires Pairs(TagsText(tags, keys[1..]) + rest) == (Carried(tags, keys[1..]), rest) <==>
               AllClosed(Carried(tags, keys[1..]))
    ensures Pairs(TagsText(tags, keys) + rest) == (Carried(tags, keys), rest) <==> AllClosed(Carried(tags, keys))
  {
    var k, v := keys[0], tags[keys[0]];
    var c := Carried(tags, keys[1..]);
    var tail := TagsText(tags, keys[1..]) + rest;
    TagsSeparated(tags, keys[1..], rest);
    Associative(TagText(k, v), TagsText(tags, keys[1..]), rest);
    assert Carried(tags, keys) == [(k, v)] + c;
    OneMoreClosed(k, v, c);
    if Closed(k) && Closed(v) {
      PairReads(k, v, tail);
      FirstAndRest((k, v), Pairs(tail).0, c);
    } else {
      PairMisreads(k, v, tail, c);
    }
  }

  lemma FirstAndRest<T>(x: T, a: seq<T>, b: seq<T>)
    ensures [x] + a == [x] + b <==> a == b
  {
    assert ([x] + a)[1..] == a && ([x] + b)[1..] == b;
  }

  lemma PairReads(k: string, v: string, tail: string)
    requires Closed(k) && Closed(v) && v != "" && Separated(tail)
    ensures Pairs(TagText(k, v) + tail) == ([(k, v)] + Pairs(tail).0, Pairs(tail).1)
  {
    var s := TagText(k, v) + tail;
    var afterKey := "=" + (EscapeKey(v) + tail);
    TagTextSplit(k, v, tail);
    assert s[1..] == EscapeKey(k) + afterKey;
    ClosedTokenReads(k, afterKey);
    assert afterKey[1..] == EscapeKey(v) + tail;
    ClosedTokenReads(v, tail);
  }

  lemma PairMisreads(k: string, v: string, tail: string, c: seq<(string, string)>)
    requires !(Closed(k) && Closed(v)) && v != "" && Separated(tail)
    ensures Pairs(TagText(k, v) + tail).0 != [(k, v)] + c
  {
    var s := TagText(k, v) + tail;
    var afterKey := "=" + (EscapeKey(v) + tail);
    TagTextSplit(k, v, tail);
    assert s[1..] == EscapeKey(k) + afterKey;
    assert ([(k, v)] + c)[0] == (k, v);
    if !Closed(k) {
      OpenTokenMisreads(k, afterKey);
      assert Pairs(s).0 == [] || Pairs(s).0[0].0 != k;
    } else {
      ClosedTokenReads(k, afterKey);
      assert afterKey[1..] == EscapeKey(v) + tail;
      OpenTokenMisreads(v, tail);
      assert Pairs(s).0 == [] || Pairs(s).0[0].1 != v;
    }
  }

  lemma OneMoreClosed(k: string, v: string, c: seq<(string, string)>)
    ensures AllClosed([(k, v)] + c) <==> Closed(k) && Closed(v) && AllClosed(c)
  {
    var all := [(k, v)] + c;
    if AllClosed(all) {
      assert all[0] == (k, v);
      forall i | 0 <= i < |c| ensures Closed(c[i].0) && Closed(c[i].1) {
        assert all[i + 1] == c[i];
      }
    }
  }

  /** Reading the head of a line gives back the measurement and exactly the tags that have a value, in
      order, if and only if none of them ends in a backslash or contains a newline. */
  lemma HeadReadsExactly(measurement: string, tags: map<string, string>, keys: seq<string>, rest: string)
    requires (forall k :: k in keys ==> k in tags) && rest != [] && rest[0] == ' '
    ensures ReadHead(Head(measurement, tags, keys) + rest) == (measurement, Carried(tags, keys), rest) <==>
              Closed(measurement) && AllClosed(Carried(tags, keys))
  {
    var tail := TagsText(tags, keys) + rest;
    assert Head(measurement, tags, keys) + rest == EscapeKey(measurement) + tail;
    TagsSeparated(tags, keys, rest);
    if Closed(measurement) {
      ClosedTokenReads(measurement, tail);
      TagsReadExactly(tags, keys, rest);
    } else {
      OpenTokenMisreads(measurement, tail);
    }
  }

  // ---------------------------------------------------------------- different points, different lines

  /** The tags that have a value. */
  function Valued(tags: map<string, string>): map<string, string> {
    map k | k in tags && tags[k] != "" :: tags[k]
  }

  lemma {:induction false} CarriedMembers(tags: map<string, string>, keys: seq<string>)
    requires forall k :: k in keys ==> k in tags
    ensures forall k, v :: (k, v) in Carried(tags, keys) <==> k in keys && tags[k] == v && v != ""
  {
    if keys == [] {
    } else {
      CarriedMembers(tags, keys[1..]);
      assert keys == [keys[0]] + keys[1..];
    }
  }

  ghost predicate Readable(measurement: string, tags: map<string, string>) {
    Closed(measurement) && forall k :: k in tags && tags[k] != "" ==> Closed(k) && Closed(tags[k])
  }

  lemma ReadableCloses(measurement: string, tags: map<string, string>, keys: seq<string>)
    requires Lists(keys, tags)
    ensures Readable(measurement, tags) <==> Closed(measurement) && AllClosed(Carried(tags, keys))
  {
    CarriedMembers(tags, keys);
    var c := Carried(tags, keys);
    if Readable(measurement, tags) {
      forall i | 0 <= i < |c| ensures Closed(c[i].0) && Closed(c[i].1) {
        assert (c[i].0, c[i].1) in c;
      }
    }
    if AllClosed(c) {
      forall k | k in tags && tags[k] != "" ensures Closed(k) && Closed(tags[k]) {
        assert (k, tags[k]) in c;
        var i :| 0 <= i < |c| && c[i] == (k, tags[k]);
      }
    }
  }

  lemma {:induction false} FieldsFollowSpace(fields: map<string, Field>, keys: seq<string>)
    requires forall k :: k in keys ==> k in fields
    ensures FieldsText(fields, keys) != "" ==> FieldsText(fields, keys)[0] == ' '
  {
    if keys == [] {
    } else {
      FieldsFollowSpace(fields, keys[..|keys| - 1]);
    }
  }

  lemma LineHead(head: string, printed: string, stamp: string)
    ensures head + printed + " " + stamp == head + (printed + (" " + stamp))
  {
  }

  /** A printed line reads back as the measurement, the tags with a value in key order, and the rest, if and
      only if neither the measurement nor the name or value of such a tag ends in a backslash or contains a
      newline. */
  lemma LineReadsExactly(measurement: string, tags: map<string, string>, tagKeys: seq<string>,
                         fields: map<string, Field>, fieldKeys: seq<string>, stamp: string)
    requires Lists(tagKeys, tags) && Lists(fieldKeys, fields) && FieldsText(fields, fieldKeys) != ""
    ensures ReadHead(LineText(measurement, tags, tagKeys, fields, fieldKeys, stamp))
              == (measurement, Carried(tags, tagKeys), FieldsText(fields, fieldKeys) + (" " + stamp))
            <==> Readable(measurement, tags)
  {
    FieldsFollowSpace(fields, fieldKeys);
    LineHead(Head(measurement, tags, tagKeys), FieldsText(fields, fieldKeys), stamp);
    HeadReadsExactly(measurement, tags, tagKeys, FieldsText(fields, fieldKeys) + (" " + stamp));
    ReadableCloses(measurement, tags, tagKeys);
  }

  /** Two points with such names that print the same head have the same
      measurement and the same tags. */
  lemma HeadsDiffer(m: string, tags: map<string, string>, keys: seq<string>, rest: string,
                    m': string, tags': map<string, string>, keys': seq<string>, rest': string)
    requires Readable(m, tags) && Readable(m', tags') && Lists(keys, tags) && Lists(keys', tags')
    requires rest != [] && rest[0] == ' ' && rest' != [] && rest'[0] == ' '
    requires Head(m, tags, keys) + rest == Head(m', tags', keys') + rest'
    ensures m == m' && Valued(tags) == Valued(tags') && rest == rest'
  {
    ReadableCloses(m, tags, keys);
    ReadableCloses(m', tags', keys');
    HeadReadsExactly(m, tags, keys, rest);
    HeadReadsExactly(m', tags', keys', rest');
    CarriedMembers(tags, keys);
    CarriedMembers(tags', keys');
    SameValued(tags, keys, tags', keys');
  }

  lemma SameValued(tags: map<string, string>, keys: seq<string>, tags': map<string, string>, keys': seq<string>)
    requires Lists(keys, tags) && Lists(keys', tags') && Carried(tags, keys) == Carried(tags', keys')
    ensures Valued(tags) == Valued(tags')
  {
    ValuedWithin(tags, keys, tags', keys');
    ValuedWithin(tags', keys', tags, keys);
  }

  lemma ValuedWithin(tags: map<string, string>, keys: seq<string>, tags': map<string, string>, keys': seq<string>)
    requires Lists(keys, tags) && Lists(keys', tags') && Carried(tags, keys) == Carried(tags', keys')
    ensures forall k :: k in Valued(tags) ==> k in Valued(tags') && Valued(tags')[k] == tags[k]
  {
    CarriedMembers(tags, keys);
    CarriedMembers(tags', keys');
    forall k | k in Valued(tags) ensures k in Valued(tags') && Valued(tags')[k] == tags[k] {
      assert (k, tags[k]) in Carried(tags, keys);
    }
  }

  /** Without that condition two different points can print the same head: a trailing backslash makes the
      separator after it look escaped. The head is well formed, but reads as the second point. */
  lemma BackslashesCollide(rest: string)
    requires rest != [] && rest[0] == ' '
    ensures Head("m", map["a\\" := "b\\", "c" := "d"], ["a\\", "c"]) == Head("m", map["a=b,c" := "d"], ["a=b,c"])
    ensures ReadHead(Head("m", map["a\\" := "b\\", "c" := "d"], ["a\\", "c"]) + rest) == ("m", [("a=b,c", "d")], rest)
    ensures Lists(["a\\", "c"], map["a\\" := "b\\", "c" := "d"]) && Lists(["a=b,c"], map["a=b,c" := "d"])
  {
    SameHead();
    assert Strings.Before("a\\", "c");
    var other := map["a=b,c" := "d"];
    assert Carried(other, ["a=b,c"]) == [("a=b,c", "d")] + Carried(other, []);
    assert Carried(other, ["a=b,c"]) == [("a=b,c", "d")];
    assert Closed("m") && Closed("a=b,c") && Closed("d");
    HeadReadsExactly("m", other, ["a=b,c"], rest);
  }

  lemma SameHead()
    ensures Head("m", map["a\\" := "b\\", "c" := "d"], ["a\\", "c"]) == Head("m", map["a=b,c" := "d"], ["a=b,c"])
  {
    TwoTags();
    OneTag();
  }

  lemma TwoTags()
    ensures TagsText(map["a\\" := "b\\", "c" := "d"], ["a\\", "c"]) == ",a\\=b\\,c=d"
  {
    var tags := map["a\\" := "b\\", "c" := "d"];
    TagsTextFirst(tags, "a\\", ["c"]);
    TagsTextOne(tags, "c");
    EscapeTwo('a', '\\');
    EscapeTwo('b', '\\');
    EscapeOne('c');
    EscapeOne('d');
    assert ["a\\"] + ["c"] == ["a\\", "c"];
  }

  lemma OneTag()
    ensures TagsText(map["a=b,c" := "d"], ["a=b,c"]) == ",a\\=b\\,c=d"
  {
    TagsTextOne(map["a=b,c" := "d"], "a=b,c");
    EscapeFive();
    EscapeOne('d');
  }

  lemma EscapeOne(a: char)
    requires !Special(a)
    ensures EscapeKey([a]) == [a]
  {
    assert [a][1..] == [];
  }

  lemma EscapeTwo(a: char, b: char)
    requires !Special(a) && !Special(b)
    ensures EscapeKey([a, b]) == [a, b]
  {
    EscapeOne(b);
    assert [a, b][1..] == [b];
  }

  lemma EscapeFive()
    ensures EscapeKey("a=b,c") == "a\\=b\\,c"
  {
    EscapeOne('c');
    assert ",c"[1..] == "c" && "b,c"[1..] == ",c" && "=b,c"[1..] == "b,c" && "a=b,c"[1..] == "=b,c";
    assert EscapeKey(",c") == "\\,c";
    assert EscapeKey("b,c") == "b\\,c";
    assert EscapeKey("=b,c") == "\\=b\\,c";
  }
}
