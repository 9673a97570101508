/** The attribute-list convention shared by the `TBEP-Authorization` and `TBEP-Encrypt`
    headers: `key1="v1",key2="v2",...`. The header is cut at every comma; each segment is
    trimmed and cut at every `=`; its first piece becomes a dictionary key and its second
    piece, unquoted, the value (null when there is no second piece). The dictionary is
    then read with its indexer. */
module AttributeList {
  import opened Wrappers
  import opened Errors
  import opened Text

  /** One comma-separated segment: its key and its (nullable) value. */
  datatype Attribute = Attribute(key: string, value: Option<string>)

  /** `IDictionary<string, string?>`. */
  type Dictionary = map<string, Option<string>>

  /** One segment: trimmed, split on `=`; the key is the first piece, the value the
      second piece with its quotes removed, or null when there is no `=` at all. */
  function ParseSegment(segment: string): (a: Attribute)
  {
    var pieces := Split(Trim(segment), '=');
    Attribute(pieces[0], if |pieces| > 1 then Some(StripQuotes(pieces[1])) else None)
  }

  /** The key is the trimmed segment up to its first `=`; the value is null when there is
      no `=`, and otherwise only the text between the first and the second `=`, unquoted:
      anything after a second `=` is lost. */
  lemma ParseSegmentMeaning(segment: string)
    ensures var a := ParseSegment(segment); var t := Trim(segment); var i := FirstIndex(t, '=');
      && a.key == t[..i]
      && (i == |t| ==> a.value == None)
      && (i < |t| ==> a.value == Some(StripQuotes(t[i + 1..][..FirstIndex(t[i + 1..], '=')])))
  {
    SplitHead(Trim(segment), '=');
  }

  /** Every comma-separated segment of the header, in order. */
  function Segments(header: string): (attrs: seq<Attribute>)
    ensures |attrs| == |Split(header, ',')|
    ensures forall i :: 0 <= i < |attrs| ==> attrs[i] == ParseSegment(Split(header, ',')[i])
  {
    var parts := Split(header, ',');
    seq(|parts|, i requires 0 <= i < |parts| => ParseSegment(parts[i]))
  }

  /** No key of `attrs` is in `acc`, and no two attributes share a key. */
  predicate Fresh(acc: Dictionary, attrs: seq<Attribute>)
  {
    && (forall i :: 0 <= i < |attrs| ==> attrs[i].key !in acc)
    && (forall i, j :: 0 <= i < j < |attrs| ==> attrs[i].key != attrs[j].key)
  }

  /** `ToDictionary` continuing from the entries already in `acc`: attributes are added
      left to right and the first key already present raises. */
  function Insert(acc: Dictionary, attrs: seq<Attribute>): (r: Result<Dictionary, Error>)
    ensures r.Success? <==> Fresh(acc, attrs)
    decreases |attrs|
  {
    if attrs == [] then Success(acc)
    else if attrs[0].key in acc then Failure(DuplicateKey(attrs[0].key))
    else
      var acc' := acc[attrs[0].key := attrs[0].value];
      assert Fresh(acc, attrs) <==> Fresh(acc', attrs[1..]);
      Insert(acc', attrs[1..])
  }

  /** A successful `ToDictionary` holds the earlier entries and every attribute, each key
      mapped to its own value, and nothing else. */
  lemma {:induction false} InsertContents(acc: Dictionary, attrs: seq<Attribute>)
    requires Fresh(acc, attrs)
    ensures Insert(acc, attrs).Success?
    ensures forall k :: k in Insert(acc, attrs).value <==> k in acc || exists i :: 0 <= i < |attrs| && attrs[i].key == k
    ensures forall k :: k in acc ==> Insert(acc, attrs).value[k] == acc[k]
    ensures forall i :: 0 <= i < |attrs| ==> Insert(acc, attrs).value[attrs[i].key] == attrs[i].value
    decreases |attrs|
  {
    if attrs != [] {
      var acc' := acc[attrs[0].key := attrs[0].value];
      FreshCons(acc, attrs);
      InsertContents(acc', attrs[1..]);
      var d := Insert(acc, attrs).value;
      assert d == Insert(acc', attrs[1..]).value;
      forall k
        ensures k in d <==> k in acc || exists i :: 0 <= i < |attrs| && attrs[i].key == k
      {
        KeyAmongCons(attrs, k);
      }
      forall i | 0 <= i < |attrs|
        ensures d[attrs[i].key] == attrs[i].value
      {
        if i > 0 {
          assert attrs[1..][i - 1] == attrs[i];
        }
      }
    }
  }

  /** A key occurs among the attributes exactly when it is the first one's or occurs
      among the rest. */
  lemma KeyAmongCons(attrs: seq<Attribute>, k: string)
    requires attrs != []
    ensures (exists i :: 0 <= i < |attrs| && attrs[i].key == k)
        <==> attrs[0].key == k || exists i :: 0 <= i < |attrs[1..]| && attrs[1..][i].key == k
  {
    if exists i :: 0 <= i < |attrs| && attrs[i].key == k {
      var i :| 0 <= i < |attrs| && attrs[i].key == k;
      if i > 0 {
        assert attrs[1..][i - 1].key == k;
      }
    }
    if exists i :: 0 <= i < |attrs[1..]| && attrs[1..][i].key == k {
      var i :| 0 <= i < |attrs[1..]| && attrs[1..][i].key == k;
      assert attrs[i + 1].key == k;
    }
  }

  /** Adding one attribute in front: fresh exactly when its key is new and the rest is
      fresh once it has been added. */
  lemma FreshCons(acc: Dictionary, attrs: seq<Attribute>)
    requires attrs != []
    ensures Fresh(acc, attrs) <==> attrs[0].key !in acc && Fresh(acc[attrs[0].key := attrs[0].value], attrs[1..])
  {
    var acc' := acc[attrs[0].key := attrs[0].value];
    if attrs[0].key !in acc && Fresh(acc', attrs[1..]) {
      forall i, j | 0 <= i < j < |attrs|
        ensures attrs[i].key != attrs[j].key
      {
        assert attrs[j] == attrs[1..][j - 1];
        if i > 0 {
          assert attrs[i] == attrs[1..][i - 1];
        }
      }
    }
  }

  /** Position `j` holds the first attribute whose key was seen before. */
  predicate FirstDuplicateAt(acc: Dictionary, attrs: seq<Attribute>, j: int)
  {
    0 <= j < |attrs| && Fresh(acc, attrs[..j]) && !Fresh(acc, attrs[..j + 1])
  }

  /** A failing `ToDictionary` names the key of the first attribute that repeats an
      earlier key. */
  lemma {:induction false} InsertFirstDuplicate(acc: Dictionary, attrs: seq<Attribute>)
    requires !Fresh(acc, attrs)
    ensures Insert(acc, attrs).Failure?
    ensures exists j :: FirstDuplicateAt(acc, attrs, j) && Insert(acc, attrs).error == DuplicateKey(attrs[j].key)
    decreases |attrs|
  {
    if attrs[0].key in acc {
      assert attrs[..0] == [] && attrs[..1] == [attrs[0]];
      assert FirstDuplicateAt(acc, attrs, 0);
    } else {
      var acc' := acc[attrs[0].key := attrs[0].value];
      FreshCons(acc, attrs);
      InsertFirstDuplicate(acc', attrs[1..]);
      var j :| FirstDuplicateAt(acc', attrs[1..], j) && Insert(acc', attrs[1..]).error == DuplicateKey(attrs[1..][j].key);
      FirstDuplicateShift(acc, attrs, j);
    }
  }

  lemma FirstDuplicateShift(acc: Dictionary, attrs: seq<Attribute>, j: int)
    requires attrs != [] && attrs[0].key !in acc
    requires FirstDuplicateAt(acc[attrs[0].key := attrs[0].value], attrs[1..], j)
    ensures FirstDuplicateAt(acc, attrs, j + 1) && attrs[j + 1] == attrs[1..][j]
  {
    var p, q := attrs[..j + 1], attrs[..j + 2];
    assert p[1..] == attrs[1..][..j];
    assert q[1..] == attrs[1..][..j + 1];
    FreshCons(acc, p);
    FreshCons(acc, q);
  }

  /** `ToDictionary` into an empty dictionary. */
  function ToDictionary(attrs: seq<Attribute>): (r: Result<Dictionary, Error>)
  {
    Insert(map[], attrs)
  }

  /** The whole header read into a dictionary. */
  function Parse(header: string): (r: Result<Dictionary, Error>)
  {
    ToDictionary(Segments(header))
  }

  /** No two attributes share a key. */
  predicate DistinctKeys(attrs: seq<Attribute>)
  {
    forall i, j :: 0 <= i < j < |attrs| ==> attrs[i].key != attrs[j].key
  }

  /** The dictionary holds exactly the attributes' keys, each with its own value. */
  ghost predicate Holds(dict: Dictionary, attrs: seq<Attribute>)
  {
    && (forall k :: k in dict <==> exists i :: 0 <= i < |attrs| && attrs[i].key == k)
    && (forall i :: 0 <= i < |attrs| ==> dict[attrs[i].key] == attrs[i].value)
  }

  /** Any header: it is read exactly when no two of its segments share a key; then every
      segment key maps to that segment's value and there is no other key; otherwise the
      error names the first segment whose key was seen before. */
  lemma ParseMeaning(header: string)
    ensures Parse(header).Success? <==> DistinctKeys(Segments(header))
    ensures Parse(header).Success? ==> Holds(Parse(header).value, Segments(header))
    ensures Parse(header).Failure? ==> exists j :: FirstDuplicateAt(map[], Segments(header), j)
                                                 && Parse(header).error == DuplicateKey(Segments(header)[j].key)
  {
    ToDictionaryMeaning(Segments(header));
  }

  lemma ToDictionaryMeaning(attrs: seq<Attribute>)
    ensures ToDictionary(attrs).Success? <==> DistinctKeys(attrs)
    ensures ToDictionary(attrs).Success? ==> Holds(ToDictionary(attrs).value, attrs)
    ensures ToDictionary(attrs).Failure? ==> exists j :: FirstDuplicateAt(map[], attrs, j)
                                                       && ToDictionary(attrs).error == DuplicateKey(attrs[j].key)
  {
    if Fresh(map[], attrs) {
      InsertContents(map[], attrs);
    } else {
      InsertFirstDuplicate(map[], attrs);
    }
  }

  /** `dict[key]`: the value, possibly null, or `KeyNotFoundException`. */
  function Lookup(dict: Dictionary, key: string): (r: Result<Option<string>, Error>)
    ensures r.Success? <==> key in dict
    ensures r.Success? ==> r.value == dict[key]
    ensures r.Failure? ==> r.error == KeyNotFound(key)
  {
    if key in dict then Success(dict[key]) else Failure(KeyNotFound(key))
  }

  /** The indexer applied to `keys` in order; the first missing key raises. */
  function LookupAll(dict: Dictionary, keys: seq<string>): (r: Result<seq<Option<string>>, Error>)
    ensures r.Success? <==> forall k :: k in keys ==> k in dict
    ensures r.Success? ==> |r.value| == |keys| && forall i :: 0 <= i < |keys| ==> r.value[i] == dict[keys[i]]
    ensures r.Failure? ==> exists i :: 0 <= i < |keys| && keys[i] !in dict
                                     && (forall j :: 0 <= j < i ==> keys[j] in dict)
                                     && r.error == KeyNotFound(keys[i])
  {
    if keys == [] then Success([])
    else match Lookup(dict, keys[0])
      case Failure(e) => Failure(e)
      case Success(v) =>
        match LookupAll(dict, keys[1..])
        case Failure(e) =>
          assert forall j :: 1 <= j < |keys| ==> keys[j] == keys[1..][j - 1];
          Failure(e)
        case Success(vs) =>
          assert forall k :: k in keys ==> k == keys[0] || k in keys[1..];
          Success([v] + vs)
  }

  /** One more key in front is looked up first. */
  lemma LookupAllCons(dict: Dictionary, key: string, keys: seq<string>)
    ensures LookupAll(dict, [key] + keys)
         == if key !in dict then Failure(KeyNotFound(key))
            else match LookupAll(dict, keys)
                 case Failure(e) => Failure(e)
                 case Success(vs) => Success([dict[key]] + vs)
  {
    assert ([key] + keys)[0] == key && ([key] + keys)[1..] == keys;
  }

  /** `key="value"`, as the client writes an attribute. */
  function Quoted(key: string, value: string): (s: string)
  {
    key + "=\"" + value + "\""
  }

  function QuotedParts(pairs: seq<(string, string)>): (parts: seq<string>)
    ensures |parts| == |pairs|
  {
    seq(|pairs|, i requires 0 <= i < |pairs| => Quoted(pairs[i].0, pairs[i].1))
  }

  /** Five keys looked up in order: the first missing one raises. */
  lemma LookupAllFive(dict: Dictionary, k0: string, k1: string, k2: string, k3: string, k4: string)
    ensures LookupAll(dict, [k0, k1, k2, k3, k4])
         == if k0 !in dict then Failure(KeyNotFound(k0))
            else if k1 !in dict then Failure(KeyNotFound(k1))
            else if k2 !in dict then Failure(KeyNotFound(k2))
            else if k3 !in dict then Failure(KeyNotFound(k3))
            else if k4 !in dict then Failure(KeyNotFound(k4))
            else Success([dict[k0], dict[k1], dict[k2], dict[k3], dict[k4]])
  {
    LookupAllFour(dict, k1, k2, k3, k4);
    LookupAllCons(dict, k0, [k1, k2, k3, k4]);
    assert [k0] + [k1, k2, k3, k4] == [k0, k1, k2, k3, k4];
    if k0 in dict && k1 in dict && k2 in dict && k3 in dict && k4 in dict {
      assert [dict[k0]] + [dict[k1], dict[k2], dict[k3], dict[k4]] == [dict[k0], dict[k1], dict[k2], dict[k3], dict[k4]];
    }
  }

  lemma LookupAllFour(dict: Dictionary, k0: string, k1: string, k2: string, k3: string)
    ensures LookupAll(dict, [k0, k1, k2, k3])
         == if k0 !in dict then Failure(KeyNotFound(k0))
            else if k1 !in dict then Failure(KeyNotFound(k1))
            else if k2 !in dict then Failure(KeyNotFound(k2))
            else if k3 !in dict then Failure(KeyNotFound(k3))
            else Success([dict[k0], dict[k1], dict[k2], dict[k3]])
  {
    LookupAllThree(dict, k1, k2, k3);
    LookupAllCons(dict, k0, [k1, k2, k3]);
    assert [k0] + [k1, k2, k3] == [k0, k1, k2, k3];
    if k0 in dict && k1 in dict && k2 in dict && k3 in dict {
      assert [dict[k0]] + [dict[k1], dict[k2], dict[k3]] == [dict[k0], dict[k1], dict[k2], dict[k3]];
    }
  }

  lemma LookupAllThree(dict: Dictionary, k0: string, k1: string, k2: string)
    ensures LookupAll(dict, [k0, k1, k2])
         == if k0 !in dict then Failure(KeyNotFound(k0))
            else if k1 !in dict then Failure(KeyNotFound(k1))
            else if k2 !in dict then Failure(KeyNotFound(k2))
            else Success([dict[k0], dict[k1], dict[k2]])
  {
    LookupAllCons(dict, k2, []);
    assert [k2] + [] == [k2];
    LookupAllCons(dict, k1, [k2]);
    assert [k1] + [k2] == [k1, k2];
    LookupAllCons(dict, k0, [k1, k2]);
    assert [k0] + [k1, k2] == [k0, k1, k2];
    if k0 in dict && k1 in dict && k2 in dict {
      assert [dict[k2]] + [] == [dict[k2]];
      assert [dict[k1]] + [dict[k2]] == [dict[k1], dict[k2]];
      assert [dict[k0]] + [dict[k1], dict[k2]] == [dict[k0], dict[k1], dict[k2]];
    }
  }

  /** A list of attributes written as `k1="v1",k2="v2",...`. */
  function FormatQuoted(pairs: seq<(string, string)>): (s: string)
    requires |pairs| >= 1
  {
    Join(QuotedParts(pairs), ',')
  }

  /** Four attributes are written one after the other, separated by `,`. */
  lemma FormatQuotedFour(pairs: seq<(string, string)>)
    requires |pairs| == 4
    ensures FormatQuoted(pairs)
         == Quoted(pairs[0].0, pairs[0].1) + "," + Quoted(pairs[1].0, pairs[1].1) + ","
          + Quoted(pairs[2].0, pairs[2].1) + "," + Quoted(pairs[3].0, pairs[3].1)
  {
    var parts := QuotedParts(pairs);
    assert parts == [parts[0], parts[1], parts[2], parts[3]];
    JoinFour(parts[0], parts[1], parts[2], parts[3], ',');
  }

  lemma FormatQuotedNotEmpty(pairs: seq<(string, string)>)
    requires |pairs| >= 1
    ensures FormatQuoted(pairs) != ""
  {
    var parts := QuotedParts(pairs);
    assert |parts[0]| >= 3;
    if |parts| > 1 {
      assert Join(parts, ',') == parts[0] + [','] + Join(parts[1..], ',');
    }
  }

  /** A key that survives the parse unchanged. */
  predicate PlainKey(k: string)
  {
    ',' !in k && '=' !in k && (k == [] || !IsWhiteSpace(k[0]))
  }

  /** A value that survives the parse unchanged. */
  predicate PlainValue(v: string)
  {
    ',' !in v && '=' !in v && (v == [] || (!IsQuote(v[0]) && !IsQuote(v[|v| - 1])))
  }

  /** A plain value followed by the base64 padding `==`. */
  predicate Padded(w: string)
  {
    |w| >= 2 && w[|w| - 2..] == "==" && PlainValue(w[..|w| - 2])
  }

  /** A value as a platform writes it: plain, or plain and padded. */
  predicate WrittenValue(w: string)
  {
    PlainValue(w) || Padded(w)
  }

  /** What the parse keeps of a written value: the text before its first `=`. */
  function ReadBack(w: string): (v: string)
    ensures PlainValue(w) ==> v == w
    ensures Padded(w) ==> v == w[..|w| - 2]
  {
    CutAtFirstEquals(w);
    w[..FirstIndex(w, '=')]
  }

  lemma CutAtFirstEquals(w: string)
    ensures PlainValue(w) ==> FirstIndex(w, '=') == |w|
    ensures Padded(w) ==> FirstIndex(w, '=') == |w| - 2
  {
    FirstIndexFinds(w, '=');
    if Padded(w) {
      assert w[|w| - 2] == "=="[0];
      forall k | 0 <= k < |w| - 2
        ensures w[k] != '='
      {
        assert w[k] == w[..|w| - 2][k];
      }
    } else if PlainValue(w) {
      forall k | 0 <= k < |w|
        ensures w[k] != '='
      {
        assert w[k] in w;
      }
    }
  }

  /** A plain value with padding added is padded, and reads back as the plain value. */
  lemma PaddedOf(v: string)
    requires PlainValue(v)
    ensures Padded(v + "==") && ReadBack(v + "==") == v
  {
    var w := v + "==";
    assert w[..|w| - 2] == v && w[|w| - 2..] == "==";
  }

  lemma WrittenValueNoComma(w: string)
    requires WrittenValue(w)
    ensures ',' !in w
  {
    if Padded(w) {
      var v := w[..|w| - 2];
      forall k | 0 <= k < |w|
        ensures w[k] != ','
      {
        if k < |v| {
          assert w[k] == v[k] && v[k] in v;
        } else {
          assert w[k] == w[|w| - 2..][k - |v|];
        }
      }
    }
  }

  lemma ParseSegmentOfPieces(s: string, k: string, q: string)
    requires Trim(s) == s && Split(s, '=') == [k, q]
    ensures ParseSegment(s) == Attribute(k, Some(StripQuotes(q)))
  {
  }

  lemma SplitQuoted(k: string, v: string)
    requires '=' !in k && '=' !in v
    ensures Split(Quoted(k, v), '=') == [k, "\"" + v + "\""]
  {
    var q := "\"" + v + "\"";
    assert Quoted(k, v) == k + ['='] + q;
    SplitFirst(k, '=', q);
    NotInQuoted(v, '=');
    SplitNoSeparator(q, '=');
  }

  lemma TrimQuoted(k: string, v: string)
    requires k == [] || !IsWhiteSpace(k[0])
    ensures Trim(Quoted(k, v)) == Quoted(k, v)
  {
    var s := Quoted(k, v);
    assert s[|s| - 1] == '"';
    assert s[0] == if k == [] then '=' else k[0];
    TrimUnchanged(s);
  }

  lemma SplitPadded(k: string, w: string)
    requires '=' !in k && '=' !in w
    ensures Split(Quoted(k, w + "=="), '=') == [k, "\"" + w, "", "\""]
  {
    var open, close := "\"" + w, "\"";
    assert '=' !in open && '=' !in close;
    PaddedShape(k, w);
    SplitEmptyBetween(k, open, close, '=');
  }

  lemma SplitEmptyBetween(a: string, b: string, c: string, sep: char)
    requires sep !in a && sep !in b && sep !in c
    ensures Split(a + [sep] + (b + [sep] + ([] + [sep] + c)), sep) == [a, b, [], c]
  {
    var x := [] + [sep] + c;
    var y := b + [sep] + x;
    SplitNoSeparator(c, sep);
    SplitFirst([], sep, c);
    assert Split(x, sep) == [[], c];
    SplitFirst(b, sep, x);
    assert Split(y, sep) == [b, [], c];
    SplitFirst(a, sep, y);
  }

  lemma PaddedShape(k: string, w: string)
    ensures Quoted(k, w + "==") == k + ['='] + (("\"" + w) + ['='] + ([] + ['='] + "\""))
  {
    var q: char := '"';
    assert "=\"" == ['='] + [q];
    assert w + "==" == w + ['='] + ['='];
    calc {
      Quoted(k, w + "==");
      k + (['='] + [q]) + (w + ['='] + ['=']) + [q];
      k + ['='] + (([q] + w) + ['='] + ([] + ['='] + [q]));
    }
  }

  /** A value ending in `==` (padded base64) loses its padding and its closing quote:
      only the text before the first padding `=` is kept. */
  lemma ParsePaddedSegment(k: string, w: string)
    requires PlainKey(k) && PlainValue(w)
    ensures ParseSegment(Quoted(k, w + "==")) == Attribute(k, Some(w))
  {
    var s := Quoted(k, w + "==");
    PaddedPieces(k, w);
    StripQuotesOfOpenQuoted(w);
    ParseSegmentWith(s, k, "\"" + w, w);
  }

  lemma PaddedPieces(k: string, w: string)
    requires PlainKey(k) && PlainValue(w)
    ensures var s := Quoted(k, w + "==");
      && Trim(s) == s && |Split(s, '=')| > 1 && Split(s, '=')[0] == k && Split(s, '=')[1] == "\"" + w
  {
    TrimQuoted(k, w + "==");
    SplitPadded(k, w);
  }

  lemma ParseSegmentWith(s: string, k: string, q: string, v: string)
    requires Trim(s) == s && |Split(s, '=')| > 1 && Split(s, '=')[0] == k && Split(s, '=')[1] == q
    requires StripQuotes(q) == v
    ensures ParseSegment(s) == Attribute(k, Some(v))
  {
  }

  /** One written attribute reads back as the same key and value. */
  lemma ParseQuotedSegment(k: string, v: string)
    requires PlainKey(k) && PlainValue(v)
    ensures ParseSegment(Quoted(k, v)) == Attribute(k, Some(v))
  {
    TrimQuoted(k, v);
    SplitQuoted(k, v);
    StripQuotesOfQuoted(v);
    ParseSegmentOfPieces(Quoted(k, v), k, "\"" + v + "\"");
  }

  /** A written attribute reads back as its key and the written value cut at its
      first `=`. */
  lemma ParseWrittenSegment(k: string, w: string)
    requires PlainKey(k) && WrittenValue(w)
    ensures ParseSegment(Quoted(k, w)) == Attribute(k, Some(ReadBack(w)))
  {
    if PlainValue(w) {
      ParseQuotedSegment(k, w);
    } else {
      var v := w[..|w| - 2];
      assert w == v + "==";
      ParsePaddedSegment(k, v);
    }
  }

  /** Attributes with plain, distinct keys and written values. */
  predicate WrittenPairs(pairs: seq<(string, string)>)
  {
    && (forall i :: 0 <= i < |pairs| ==> PlainKey(pairs[i].0) && WrittenValue(pairs[i].1))
    && (forall i, j :: 0 <= i < j < |pairs| ==> pairs[i].0 != pairs[j].0)
  }

  /** Five written attributes with distinct keys. */
  lemma WrittenPairsFive(p0: (string, string), p1: (string, string), p2: (string, string),
                       p3: (string, string), p4: (string, string))
    requires PlainKey(p0.0) && PlainKey(p1.0) && PlainKey(p2.0) && PlainKey(p3.0) && PlainKey(p4.0)
    requires WrittenValue(p0.1) && WrittenValue(p1.1) && WrittenValue(p2.1) && WrittenValue(p3.1) && WrittenValue(p4.1)
    requires p0.0 != p1.0 && p0.0 != p2.0 && p0.0 != p3.0 && p0.0 != p4.0
    requires p1.0 != p2.0 && p1.0 != p3.0 && p1.0 != p4.0
    requires p2.0 != p3.0 && p2.0 != p4.0 && p3.0 != p4.0
    ensures WrittenPairs([p0, p1, p2, p3, p4])
  {
  }

  /** Four written attributes with distinct keys. */
  lemma WrittenPairsFour(p0: (string, string), p1: (string, string), p2: (string, string), p3: (string, string))
    requires PlainKey(p0.0) && PlainKey(p1.0) && PlainKey(p2.0) && PlainKey(p3.0)
    requires WrittenValue(p0.1) && WrittenValue(p1.1) && WrittenValue(p2.1) && WrittenValue(p3.1)
    requires p0.0 != p1.0 && p0.0 != p2.0 && p0.0 != p3.0
    requires p1.0 != p2.0 && p1.0 != p3.0 && p2.0 != p3.0
    ensures WrittenPairs([p0, p1, p2, p3])
  {
  }

  lemma SegmentsOfFormatted(pairs: seq<(string, string)>)
    requires |pairs| >= 1 && WrittenPairs(pairs)
    ensures var attrs := Segments(FormatQuoted(pairs));
      |attrs| == |pairs| && forall i :: 0 <= i < |pairs| ==> attrs[i] == Attribute(pairs[i].0, Some(ReadBack(pairs[i].1)))
  {
    var parts := QuotedParts(pairs);
    forall i | 0 <= i < |parts|
      ensures ',' !in parts[i]
    {
      WrittenValueNoComma(pairs[i].1);
      NotInQuoted(pairs[i].1, ',');
      assert parts[i] == pairs[i].0 + ['='] + ("\"" + pairs[i].1 + "\"");
    }
    SplitJoin(parts, ',');
    var attrs := Segments(FormatQuoted(pairs));
    forall i | 0 <= i < |pairs|
      ensures attrs[i] == Attribute(pairs[i].0, Some(ReadBack(pairs[i].1)))
    {
      assert attrs[i] == ParseSegment(parts[i]);
      ParseWrittenSegment(pairs[i].0, pairs[i].1);
    }
  }

  /** A header that lists attributes with plain, distinct keys and written values reads
      back as exactly those keys; a plain value comes back whole, a padded one without its
      padding. */
  lemma ParseFormatted(header: string, pairs: seq<(string, string)>)
    requires |pairs| >= 1 && WrittenPairs(pairs) && header == FormatQuoted(pairs)
    ensures Parse(header).Success?
    ensures forall k :: k in Parse(header).value <==> exists i :: 0 <= i < |pairs| && pairs[i].0 == k
    ensures forall i :: 0 <= i < |pairs| ==> Parse(header).value[pairs[i].0] == Some(ReadBack(pairs[i].1))
  {
    SegmentsOfFormatted(pairs);
    InsertPairs(Segments(header), pairs);
  }

  lemma InsertPairs(attrs: seq<Attribute>, pairs: seq<(string, string)>)
    requires |attrs| == |pairs| && WrittenPairs(pairs)
    requires forall i :: 0 <= i < |pairs| ==> attrs[i] == Attribute(pairs[i].0, Some(ReadBack(pairs[i].1)))
    ensures Insert(map[], attrs).Success?
    ensures forall k :: k in Insert(map[], attrs).value <==> exists i :: 0 <= i < |pairs| && pairs[i].0 == k
    ensures forall i :: 0 <= i < |pairs| ==> Insert(map[], attrs).value[pairs[i].0] == Some(ReadBack(pairs[i].1))
  {
    assert Fresh(map[], attrs);
    InsertContents(map[], attrs);
  }

  /** The value read for the `i`-th listed attribute. */
  lemma ParseFormattedAt(header: string, pairs: seq<(string, string)>, i: nat)
    requires |pairs| >= 1 && WrittenPairs(pairs) && header == FormatQuoted(pairs) && i < |pairs|
    ensures Parse(header).Success? && pairs[i].0 in Parse(header).value
    ensures Parse(header).value[pairs[i].0] == Some(ReadBack(pairs[i].1))
  {
    ParseFormatted(header, pairs);
  }
}
