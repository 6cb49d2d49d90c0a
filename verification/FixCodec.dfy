/** What the FIX codec guarantees: when a message survives the wire, and which damage strict parsing notices. */
module FixCodec {
  import opened Types
  import opened Text
  import opened FixText
  import opened FixMessages

  ghost predicate ValuesOk(fields: seq<Field>) {
    forall i | 0 <= i < |fields| :: NoSoh(fields[i].value)
  }

  ghost predicate TagsOk(fields: seq<Field>) {
    forall i | 0 <= i < |fields| :: fields[i].tag > 0
  }

  ghost predicate Contains(s: string, needle: string) {
    exists i: nat :: OccursAt(s, needle, i)
  }

  /** No value of the message holds a delimiter. */
  ghost predicate Delimited(fields: seq<Field>) {
    NoSoh(BeginString(fields)) && NoSoh(MsgType(fields)) && ValuesOk(Others(fields))
  }

  /**
  What a message needs to survive the wire: positive tags, no delimiter inside a value, no `9=` inside the begin string,
  and a body whose length is a 32-bit number. Values may hold equals signs, and tags may repeat.
  */
  ghost predicate WellFormed(fields: seq<Field>) {
    && Delimited(fields) && TagsOk(Others(fields))
    && !Contains(BeginString(fields), "9=")
    && |Body(fields)| <= INT32_MAX
  }

  // ---------- Fields in, fields out ----------

  /** A trailer field with some text in place of the checksum. */
  ghost function TrailerText(x: string): (t: string)
    ensures |t| == |x| + 4
  {
    "10=" + x + [SOH]
  }

  lemma TrailerChars(x: string)
    ensures var t := TrailerText(x);
            && t[0] == '1' && t[1] == '0' && t[2] == '=' && t[3..|x| + 3] == x && t[|x| + 3] == SOH
            && t[3..] == x + [SOH]
            && (forall k | 0 <= k < |x| :: t[k + 3] == x[k])
  {}

  lemma DecimalHasNoMarks(n: int)
    ensures |Decimal(n)| > 0 && '=' !in Decimal(n) && SOH !in Decimal(n)
  {}

  /** Reading text up to an equals sign as the tag, and from there up to a delimiter as the value. */
  lemma FirstFieldOfParts(tagText: string, value: string, post: string)
    requires '=' !in tagText && NoSoh(value)
    ensures var tag := FromChars(tagText);
            && (tag.Some? ==> INT32_MIN <= tag.value <= INT32_MAX)
            && FirstField(tagText + "=" + value + [SOH] + post)
            == if tag.None? || tag.value <= 0 then None else Some((Field(tag.value, value), |tagText| + |value| + 2))
  {
    hide FromChars, Find, NoSoh;
    FromCharsRange(tagText);
    var s := tagText + "=" + value + [SOH] + post;
    forall j | 0 <= j < |tagText| ensures s[j] != '=' { assert s[j] == tagText[j]; }
    assert s[|tagText|] == '=';
    FindIs(s, '=', |tagText|);
    assert s[..|tagText|] == tagText;
    var t := s[|tagText| + 1..];
    assert t == value + [SOH] + post;
    EndOfValue(value, post);
  }

  lemma EndOfValue(x: string, post: string)
    requires NoSoh(x)
    ensures Find(x + [SOH] + post, SOH) == Some(|x|) && (x + [SOH] + post)[..|x|] == x
  {
    var t := x + [SOH] + post;
    forall j | 0 <= j < |x| ensures t[j] != SOH { assert t[j] == x[j]; }
    FindIs(t, SOH, |x|);
  }

  /** Reading the text of one field gives that field back, whatever follows it, exactly when its tag is positive. */
  lemma FirstFieldOfText(f: Field, post: string)
    requires NoSoh(f.value)
    ensures FirstField(FieldText(f) + post) == if f.tag > 0 then Some((f, |FieldText(f)|)) else None
  {
    hide Decimal, FromChars, FirstField, NoSoh;
    DecimalHasNoMarks(f.tag);
    FirstFieldOfParts(Decimal(f.tag), f.value, post);
    FromCharsOfDecimal(f.tag, []);
    assert Decimal(f.tag) + [] == Decimal(f.tag);
  }

  lemma {:induction false} ParseTexts(fields: seq<Field>, post: string)
    requires ValuesOk(fields) && TagsOk(fields)
    ensures ParseFields(Texts(fields) + post) == Prepend(fields, ParseFields(post))
  {
    hide FieldText, FirstField, NoSoh;
    if fields == [] {
      assert Texts(fields) + post == post;
      PrependNothing(ParseFields(post));
    } else {
      var f, rest := fields[0], fields[1..];
      var s := Texts(fields) + post;
      assert s == FieldText(f) + (Texts(rest) + post);
      FirstFieldOfText(f, Texts(rest) + post);
      FieldTextIsLong(f);
      assert s[|FieldText(f)|..] == Texts(rest) + post;
      ParseTexts(rest, post);
      PrependTwice(f, rest, ParseFields(post));
      assert [f] + rest == fields;
    }
  }

  lemma PrependTwice(f: Field, rest: seq<Field>, r: Result<seq<Field>>)
    ensures Prepend([f], Prepend(rest, r)) == Prepend([f] + rest, r)
  {
    if r.Ok? { assert [f] + (rest + r.value) == [f] + rest + r.value; }
  }

  lemma FieldTextIsLong(f: Field)
    ensures |FieldText(f)| > 0 && FieldText(f)[|FieldText(f)| - 1] == SOH
  {
    hide Decimal;
  }

  /** A tag that is not positive stops the parser. */
  lemma {:induction false} ParseBadTag(fields: seq<Field>, post: string)
    requires ValuesOk(fields) && !TagsOk(fields)
    ensures ParseFields(Texts(fields) + post).Err?
  {
    hide FieldText, FirstField, NoSoh;
    var f, rest := fields[0], fields[1..];
    var s := Texts(fields) + post;
    assert s == FieldText(f) + (Texts(rest) + post);
    FirstFieldOfText(f, Texts(rest) + post);
    FieldTextIsLong(f);
    assert s[|FieldText(f)|..] == Texts(rest) + post;
    if f.tag > 0 { ParseBadTag(rest, post); }
  }

  /** What the parser returns has positive tags and no delimiter in any value. */
  lemma {:induction false} ParsedIsSound(raw: string)
    ensures ParseFields(raw).Ok? ==> TagsOk(ParseFields(raw).value) && ValuesOk(ParseFields(raw).value)
    decreases |raw|
  {
    hide FirstField, NoSoh;
    if raw != [] {
      var first := FirstField(raw);
      if first.Some? {
        FirstFieldIsSound(raw);
        ParsedIsSound(raw[first.value.1..]);
      }
    }
  }

  lemma FirstFieldIsSound(raw: string)
    requires FirstField(raw).Some?
    ensures FirstField(raw).value.0.tag > 0 && NoSoh(FirstField(raw).value.0.value)
  {
    hide FromChars;
  }

  lemma {:induction false} TextsAppend(a: seq<Field>, b: seq<Field>)
    ensures Texts(a + b) == Texts(a) + Texts(b)
  {
    hide FieldText, Texts;
    if a == [] {
      assert a + b == b;
      NoTexts(b);
    } else {
      TextsAppend(a[1..], b);
      assert a == [a[0]] + a[1..] && a + b == [a[0]] + (a[1..] + b);
      TextsCons(a[0], a[1..]);
      TextsCons(a[0], a[1..] + b);
      assert FieldText(a[0]) + (Texts(a[1..]) + Texts(b)) == FieldText(a[0]) + Texts(a[1..]) + Texts(b);
    }
  }

  lemma NoTexts(b: seq<Field>)
    ensures Texts([]) + Texts(b) == Texts(b)
  {}

  /** A serialised message is the texts of its canonical fields. */
  lemma SerializedIsCanonicalTexts(fields: seq<Field>)
    ensures SerializeFields(fields) == Texts(Canonical(fields))
    ensures Covered(fields) == Texts(Covering(fields)) && Canonical(fields) == Covering(fields) + [CheckSumField(fields)]
  {
    hide FieldText, Decimal, BeginString, MsgType, Others, CheckSum, ThreeDigits;
    var head := [Field(TAG_BEGIN_STRING, BeginString(fields)), Field(TAG_BODY_LENGTH, Decimal(|Body(fields)|))];
    var body := [Field(TAG_MSG_TYPE, MsgType(fields))] + Others(fields);
    TextsAppend(head, body);
    assert head + body == Covering(fields);
    TextsAppend(Covering(fields), [CheckSumField(fields)]);
    TextsOne(CheckSumField(fields));
  }

  lemma TextsOne(f: Field)
    ensures Texts([f]) == FieldText(f)
  {
    hide FieldText;
    assert FieldText(f) + [] == FieldText(f);
  }

  /** The canonical fields before the trailer. */
  ghost function Covering(fields: seq<Field>): seq<Field> {
    [Field(TAG_BEGIN_STRING, BeginString(fields)), Field(TAG_BODY_LENGTH, Decimal(|Body(fields)|)),
     Field(TAG_MSG_TYPE, MsgType(fields))] + Others(fields)
  }

  ghost function CheckSumField(fields: seq<Field>): Field {
    Field(TAG_CHECK_SUM, ThreeDigits(CheckSum(Covered(fields))))
  }

  lemma CoveringIsOk(fields: seq<Field>)
    requires Delimited(fields)
    ensures ValuesOk(Covering(fields))
    ensures TagsOk(Covering(fields)) <==> TagsOk(Others(fields))
    ensures ValuesOk(Canonical(fields))
  {
    hide Decimal, BeginString, MsgType, Others, CheckSum, Covered;
    DecimalHasNoMarks(|Body(fields)|);
    DigitsHaveNoSoh(ThreeDigits(CheckSum(Covered(fields))));
    var c := Covering(fields);
    if TagsOk(c) {
      forall i | 0 <= i < |Others(fields)| ensures Others(fields)[i].tag > 0 { assert c[i + 3] == Others(fields)[i]; }
    }
  }

  lemma DigitsHaveNoSoh(s: string)
    requires AllDigits(s)
    ensures NoSoh(s)
  {}

  // ---------- Locating body length and trailer ----------

  /** The first `9=` of a serialised message is its body length field, unless the begin string holds one. */
  lemma BodyLengthIsLocated(begin: string, tail: string)
    requires NoSoh(begin)
    ensures var raw := HeadText(begin, tail);
            FindTagStart(raw, "9=") == if Contains(begin, "9=") then None else Some(|begin| + 3)
  {
    hide FindText, OccursAt;
    var raw := HeadText(begin, tail);
    forall j | 0 <= j < |begin| + 3 ensures OccursAt(raw, "9=", j) <==> 2 <= j && OccursAt(begin, "9=", j - 2) {
      OccurrenceInHead(begin, tail, j);
    }
    if Contains(begin, "9=") {
      var i: nat :| OccursAt(begin, "9=", i);
      OccursInside(begin, "9=", i);
      assert OccursAt(raw, "9=", i + 2);
      HeadChars(begin, tail);
    } else {
      HeadChars(begin, tail);
      FindTextIs(raw, "9=", |begin| + 3);
    }
  }

  /** A begin string that holds `9=` makes a message unreadable, whatever else it holds: only the first hit is looked at. */
  lemma BeginStringHidesTheLength(fields: seq<Field>)
    requires NoSoh(BeginString(fields)) && Contains(BeginString(fields), "9=")
    ensures ParseStrictFields(SerializeFields(fields)).Err?
  {
    hide Decimal, MsgType, Others, Body, BeginString, Covered, Contains, FindTagStart, Find, ParseFields, FromChars, GetField, CheckSum, ThreeDigits, NoSoh;
    var tail := Decimal(|Body(fields)|) + [SOH] + Body(fields) + Trailer(fields);
    HeadIs(fields);
    assert SerializeFields(fields) == HeadText(BeginString(fields), tail);
    BodyLengthIsLocated(BeginString(fields), tail);
  }

  ghost function HeadText(begin: string, tail: string): string {
    "8=" + begin + [SOH] + "9=" + tail
  }

  lemma OccursInside(s: string, needle: string, i: nat)
    requires OccursAt(s, needle, i)
    ensures i + |needle| <= |s|
  {}

  lemma HeadChars(begin: string, tail: string)
    requires NoSoh(begin)
    ensures var raw := HeadText(begin, tail);
            && OccursAt(raw, "9=", |begin| + 3) && raw[|begin| + 2] == SOH && |raw| >= |begin| + 5
            && forall j | 0 <= j < |begin| + 2 :: raw[j] != SOH
  {
    var raw := HeadText(begin, tail);
    assert raw[|begin| + 3..|begin| + 5] == "9=";
    forall j | 0 <= j < |begin| + 2 ensures raw[j] != SOH {
      if j >= 2 { assert raw[j] == begin[j - 2]; }
    }
  }

  lemma OccurrenceInHead(begin: string, tail: string, j: nat)
    requires j < |begin| + 3
    ensures var raw := HeadText(begin, tail);
            OccursAt(raw, "9=", j) <==> 2 <= j && OccursAt(begin, "9=", j - 2)
  {
    var raw := HeadText(begin, tail);
    assert raw[0] == '8' && raw[1] == '=' && raw[|begin| + 2] == SOH;
    if 2 <= j && j + 2 <= |begin| + 2 { assert raw[j..j + 2] == begin[j - 2..j]; }
    if OccursAt(raw, "9=", j) {
      assert raw[j] == raw[j..j + 2][0] == '9' && raw[j + 1] == raw[j..j + 2][1] == '=';
    }
  }

  /** The last trailer mark of a buffer that ends in a trailer is that trailer's. */
  lemma TrailerIsLocated(covered: string, x: string)
    requires covered != [] && covered[|covered| - 1] == SOH && NoSoh(x)
    ensures FindLastText(covered + TrailerText(x), TrailerMark(), |covered| + |x| + 4) == Some(|covered| - 1)
  {
    hide TrailerText, NoSoh, FindLastText, OccursAt, TrailerMark;
    var raw := covered + TrailerText(x);
    MarkBeforeTrailer(covered, x);
    forall j | |covered| <= j <= |raw| ensures !OccursAt(raw, TrailerMark(), j) {
      NoMarkInTrailer(covered, x, j);
    }
    FindLastTextIs(raw, TrailerMark(), |covered| - 1);
  }

  lemma MarkBeforeTrailer(covered: string, x: string)
    requires covered != [] && covered[|covered| - 1] == SOH
    ensures OccursAt(covered + TrailerText(x), TrailerMark(), |covered| - 1)
  {
    hide TrailerText;
    TrailerChars(x);
    var raw, at := covered + TrailerText(x), |covered| - 1;
    assert raw[at] == covered[at];
    assert raw[at + 1] == TrailerText(x)[0] && raw[at + 2] == TrailerText(x)[1] && raw[at + 3] == TrailerText(x)[2];
    assert raw[at..at + 4] == [raw[at], raw[at + 1], raw[at + 2], raw[at + 3]];
  }

  lemma NoMarkInTrailer(covered: string, x: string, j: nat)
    requires NoSoh(x) && j >= |covered|
    ensures !OccursAt(covered + TrailerText(x), TrailerMark(), j)
  {
    hide TrailerText, NoSoh;
    var raw := covered + TrailerText(x);
    if j + 4 <= |raw| {
      NoSohInTrailer(covered, x, j);
      assert raw[j..j + 4][0] == raw[j];
    }
  }

  lemma NoSohInTrailer(covered: string, x: string, j: nat)
    requires NoSoh(x) && |covered| <= j <= |covered| + |x| + 2
    ensures (covered + TrailerText(x))[j] != SOH
  {
    hide TrailerText;
    TrailerChars(x);
    var k := j - |covered|;
    assert (covered + TrailerText(x))[j] == TrailerText(x)[k];
    if k >= 3 { assert TrailerText(x)[k - 3 + 3] == x[k - 3]; }
  }

  /** What strict parsing of a serialised message with some trailer text amounts to: its two numbers. */
  lemma StrictChecksOfTrailer(fields: seq<Field>, x: string, parsed: seq<Field>)
    requires Delimited(fields) && NoSoh(x)
    requires |parsed| >= 2 && parsed[..2] == Covering(fields)[..2] && parsed[|parsed| - 1] == Field(TAG_CHECK_SUM, x)
    ensures StrictChecks(Covered(fields) + TrailerText(x), parsed)
       <==> !Contains(BeginString(fields), "9=") && |Body(fields)| <= INT32_MAX && FromChars(x) == Some(CheckSum(Covered(fields)))
  {
    hide Decimal, FromChars, Covering, Body, BeginString, CheckSum, Covered, Find, FindLastText, FindTagStart, Contains, NoSoh, GetField;
    var begin, body, covered := BeginString(fields), Body(fields), Covered(fields);
    var raw := covered + TrailerText(x);
    BodyStartIsLocated(fields, x);
    BodyLengthIsSecond(fields, parsed);
    if !Contains(begin, "9=") {
      CoveredEndsInBody(fields);
      TrailerIsLocated(covered, x);
      FromCharsOfDecimal(|body|, []);
      assert Decimal(|body|) + [] == Decimal(|body|);
      assert raw[..|covered|] == covered;
    }
  }

  lemma BodyLengthIsSecond(fields: seq<Field>, parsed: seq<Field>)
    requires |parsed| >= 2 && parsed[..2] == Covering(fields)[..2]
    ensures GetField(parsed, TAG_BODY_LENGTH) == Some(Decimal(|Body(fields)|))
  {
    hide Decimal, Body, BeginString, MsgType, Others;
    assert parsed[0] == parsed[..2][0] && parsed[1] == parsed[..2][1];
    assert parsed[1..][0] == parsed[1];
  }

  /** Where the body of a serialised message starts, as the strict parser finds it. */
  lemma BodyStartIsLocated(fields: seq<Field>, x: string)
    requires Delimited(fields)
    ensures var raw := Covered(fields) + TrailerText(x);
            var pos := FindTagStart(raw, "9=");
            if Contains(BeginString(fields), "9=") then pos.None?
            else pos.Some? && pos.value <= |raw| && Find(raw[pos.value..], SOH).Some?
                 && pos.value + Find(raw[pos.value..], SOH).value + 1 == |Covered(fields)| - |Body(fields)|
  {
    hide Decimal, MsgType, Others, Body, BeginString, Covered, Contains, FindTagStart, Find;
    var begin, body := BeginString(fields), Body(fields);
    var trailer := TrailerText(x);
    var raw := Covered(fields) + trailer;
    var length := Decimal(|body|);
    HeadIs(fields);
    var tail := length + [SOH] + body + trailer;
    assert raw == HeadText(begin, tail);
    BodyLengthIsLocated(begin, tail);
    var pos := |begin| + 3;
    assert raw[pos..] == "9=" + length + [SOH] + (body + trailer);
    DecimalHasNoMarks(|body|);
    EndOfLength(length, body + trailer);
  }

  lemma EndOfLength(length: string, tail: string)
    requires SOH !in length
    ensures Find("9=" + length + [SOH] + tail, SOH) == Some(|length| + 2)
  {
    var s := "9=" + length + [SOH] + tail;
    forall j | 0 <= j < |length| + 2 ensures s[j] != SOH {
      if j >= 2 { assert s[j] == length[j - 2]; }
    }
    FindIs(s, SOH, |length| + 2);
  }

  lemma CoveredEndsInBody(fields: seq<Field>)
    ensures |Body(fields)| > 0 && Covered(fields) != [] && Covered(fields)[|Covered(fields)| - 1] == SOH
  {
    hide FieldText, Decimal, BeginString, MsgType, Others;
    TextsEnd([Field(TAG_MSG_TYPE, MsgType(fields))] + Others(fields));
  }

  lemma {:induction false} TextsEnd(fields: seq<Field>)
    requires fields != []
    ensures Texts(fields) != [] && Texts(fields)[|Texts(fields)| - 1] == SOH
  {
    hide FieldText;
    FieldTextIsLong(fields[0]);
    if |fields| > 1 { TextsEnd(fields[1..]); }
  }

  // ---------- Round trip ----------

  /** Parsing a serialised message whose trailer text was replaced by `x`. */
  lemma ParseWithTrailer(fields: seq<Field>, x: string)
    requires Delimited(fields) && TagsOk(Others(fields)) && NoSoh(x)
    ensures ParseFields(Covered(fields) + TrailerText(x)) == Ok(Covering(fields) + [Field(TAG_CHECK_SUM, x)])
  {
    hide Decimal, BeginString, MsgType, Others, Covered, ParseFields, Texts, NoSoh;
    var f := Field(TAG_CHECK_SUM, x);
    SerializedIsCanonicalTexts(fields);
    CoveringIsOk(fields);
    TagTexts();
    assert FieldText(f) == TrailerText(x) by { assert "10" + "=" == "10="; }
    ParseTexts(Covering(fields), FieldText(f));
    ParseTexts([f], []);
    TextsOne(f);
    assert FieldText(f) + [] == FieldText(f);
    ParseNothing();
    assert [f] + [] == [f];
    assert ParseFields(FieldText(f)) == Ok([f]);
  }

  /**
  Round trip: strict parsing gives a serialised message back, in canonical order and with its two computed fields,
  exactly when the message is well formed.
  */
  lemma RoundTripIffWellFormed(fields: seq<Field>)
    ensures ParseStrictFields(SerializeFields(fields)) == Ok(Canonical(fields)) <==> WellFormed(fields)
  {
    hide Decimal, BeginString, MsgType, Others, Covered, CheckSum, ThreeDigits, FromChars, ParseFields, StrictChecks, Body, Texts, Contains, NoSoh;
    var wire := SerializeFields(fields);
    SerializedIsCanonicalTexts(fields);
    ParsedIsSound(wire);
    if !Delimited(fields) {
      NotDelimited(fields);
    } else if !TagsOk(Others(fields)) {
      CoveringIsOk(fields);
      assert !TagsOk(Canonical(fields)) by {
        var i :| 0 <= i < |Covering(fields)| && Covering(fields)[i].tag <= 0;
        assert Canonical(fields)[i] == Covering(fields)[i];
      }
    } else {
      var x := ThreeDigits(CheckSum(Covered(fields)));
      DigitsHaveNoSoh(x);
      TrailerIs(fields);
      ParseWithTrailer(fields, x);
      StrictChecksOfTrailer(fields, x, Canonical(fields));
      CheckSumReadsBack(CheckSum(Covered(fields)));
    }
  }

  lemma NotDelimited(fields: seq<Field>)
    requires !Delimited(fields)
    ensures !ValuesOk(Canonical(fields))
  {
    hide Decimal, BeginString, MsgType, Others, Covered, CheckSum, ThreeDigits, Body, NoSoh;
    var c := Canonical(fields);
    assert c[0].value == BeginString(fields) && c[2].value == MsgType(fields);
    if !ValuesOk(Others(fields)) {
      var i :| 0 <= i < |Others(fields)| && !NoSoh(Others(fields)[i].value);
      assert c[i + 3] == Others(fields)[i];
    }
  }

  lemma CheckSumReadsBack(n: nat)
    requires n < 1000
    ensures FromChars(ThreeDigits(n)) == Some(n)
    ensures var s := ThreeDigits(n); DigitsValue(s) == n
  {
    hide DigitsValue, FromChars;
    var s := ThreeDigits(n);
    var a, b, c := s[0], s[1], s[2];
    assert s == [a, b, c];
    ThreeValue(a, b, c);
    FromCharsOfThree(a, b, c);
  }

  lemma {:induction false} OthersAppend(a: seq<Field>, b: seq<Field>)
    ensures Others(a + b) == Others(a) + Others(b)
  {
    hide Others;
    if a == [] {
      assert a + b == b;
      NoOthersBefore(b);
    } else {
      OthersAppend(a[1..], b);
      assert a == [a[0]] + a[1..] && a + b == [a[0]] + (a[1..] + b);
      OthersCons(a[0], a[1..]);
      OthersCons(a[0], a[1..] + b);
      assert OthersHead(a[0]) + (Others(a[1..]) + Others(b)) == OthersHead(a[0]) + Others(a[1..]) + Others(b);
    }
  }

  function OthersHead(f: Field): seq<Field> {
    if IsComputedOrHeader(f.tag) then [] else [f]
  }

  lemma OthersCons(f: Field, rest: seq<Field>)
    ensures Others([f] + rest) == OthersHead(f) + Others(rest)
  {
    assert ([f] + rest)[1..] == rest;
  }

  lemma NoOthersBefore(b: seq<Field>)
    ensures Others([]) + Others(b) == Others(b)
  {}

  lemma OthersOfOne(f: Field)
    ensures Others([f]) == OthersHead(f)
  {
    assert [f][1..] == [];
  }

  lemma {:induction false} OthersOfOthers(fields: seq<Field>)
    ensures Others(Others(fields)) == Others(fields)
  {
    if fields != [] {
      OthersOfOthers(fields[1..]);
      if !IsComputedOrHeader(fields[0].tag) {
        OthersAppend([fields[0]], Others(fields[1..]));
        OthersOfOne(fields[0]);
      } else {
        assert Others(fields) == Others(fields[1..]);
      }
    }
  }

  /** Serialising what strict parsing returned reproduces the same bytes. */
  lemma CanonicalIsStable(fields: seq<Field>)
    ensures SerializeFields(Canonical(fields)) == SerializeFields(fields)
    ensures Canonical(Canonical(fields)) == Canonical(fields)
  {
    hide Decimal, CheckSum, ThreeDigits, Texts, Body, Others, GetField;
    var c := Canonical(fields);
    var last := CheckSumField(fields);
    SameHead(fields, c);
    assert c == [c[0]] + ([c[1]] + ([c[2]] + (Others(fields) + [last])));
    OthersAppend([c[0]], [c[1]] + ([c[2]] + (Others(fields) + [last])));
    OthersAppend([c[1]], [c[2]] + (Others(fields) + [last]));
    OthersAppend([c[2]], Others(fields) + [last]);
    OthersAppend(Others(fields), [last]);
    OthersOfOne(c[0]);
    OthersOfOne(c[1]);
    OthersOfOne(c[2]);
    OthersOfOne(last);
    OthersOfOthers(fields);
    assert Others(c) == Others(fields);
    assert Body(c) == Body(fields) by { BodyIsDetermined(fields, c); }
    CoveredIsDetermined(fields, c);
  }

  lemma SameHead(fields: seq<Field>, c: seq<Field>)
    requires |c| >= 3 && c[0] == Field(TAG_BEGIN_STRING, BeginString(fields)) && c[1].tag == TAG_BODY_LENGTH
    requires c[2] == Field(TAG_MSG_TYPE, MsgType(fields))
    ensures BeginString(c) == BeginString(fields) && MsgType(c) == MsgType(fields)
  {
    hide BeginString, MsgType;
    assert GetField(c, TAG_BEGIN_STRING) == Some(BeginString(fields));
    assert c[1..][0] == c[1] && c[1..][1..][0] == c[2];
    assert GetField(c, TAG_MSG_TYPE) == GetField(c[1..], TAG_MSG_TYPE) == GetField(c[1..][1..], TAG_MSG_TYPE);
    HeadFromFields(c);
  }

  lemma HeadFromFields(c: seq<Field>)
    ensures GetField(c, TAG_BEGIN_STRING).Some? ==> BeginString(c) == GetField(c, TAG_BEGIN_STRING).value
    ensures GetField(c, TAG_MSG_TYPE).Some? ==> MsgType(c) == GetField(c, TAG_MSG_TYPE).value
  {
    hide GetField;
  }

  lemma BodyIsDetermined(a: seq<Field>, b: seq<Field>)
    requires MsgType(a) == MsgType(b) && Others(a) == Others(b)
    ensures Body(a) == Body(b)
  {
    hide MsgType, Others, Texts;
  }

  lemma CoveredIsDetermined(a: seq<Field>, b: seq<Field>)
    requires BeginString(a) == BeginString(b) && MsgType(a) == MsgType(b) && Others(a) == Others(b) && Body(a) == Body(b)
    ensures SerializeFields(a) == SerializeFields(b) && Canonical(a) == Canonical(b)
  {
    hide BeginString, MsgType, Others, Body, Texts, CheckSum, Decimal, ThreeDigits;
  }

  // ---------- Damage before the trailer ----------

  /**
  However the text before a trailer was damaged, if the parser gets through and the text still ends in a delimiter,
  the last value it reads is the trailer's.
  */
  lemma {:induction false} LastValueIsTrailers(text: string, x: string)
    requires NoSoh(x) && '=' !in x
    requires text != [] ==> text[|text| - 1] == SOH
    ensures var r := ParseFields(text + TrailerText(x));
            r.Ok? ==> r.value != [] && r.value[|r.value| - 1].value == x
    decreases |text|
  {
    hide FromChars, Find, FirstField, NoSoh;
    var raw := text + TrailerText(x);
    var first := FirstField(raw);
    if first.Some? {
      FirstFieldEndsInTextOrTrailer(text, x);
      var n := first.value.1;
      if n <= |text| {
        assert raw[n..] == text[n..] + TrailerText(x);
        LastValueIsTrailers(text[n..], x);
      } else {
        assert raw[n..] == [];
        ParseNothing();
      }
    }
  }

  /** A field read off a damaged text either ends inside the text, at a delimiter, or swallows the trailer and ends with its value. */
  lemma FirstFieldEndsInTextOrTrailer(text: string, x: string)
    requires NoSoh(x) && '=' !in x
    requires text != [] ==> text[|text| - 1] == SOH
    ensures var raw := text + TrailerText(x);
            var first := FirstField(raw);
            first.Some? ==> if first.value.1 <= |text| then true else first.value.1 == |raw| && first.value.0.value == x
  {
    hide FromChars, Find, TrailerText, NoSoh;
    TrailerChars(x);
    var trailer := TrailerText(x);
    var raw := text + trailer;
    var first := FirstField(raw);
    if first.Some? {
      var eq := Find(raw, '=').value;
      if eq < |text| {
        assert raw[eq] == text[eq];
        SohBeforeEnd(raw, eq, |text| - 1);
      } else {
        assert raw[|text|] == trailer[0] && raw[|text| + 1] == trailer[1] && raw[|text| + 2] == trailer[2];
        assert eq == |text| + 2;
        EndOfValue(x, []);
        assert raw[eq + 1..] == trailer[3..] == x + [SOH] + [];
      }
    }
  }

  lemma SohBeforeEnd(raw: string, eq: nat, last: nat)
    requires eq < last < |raw| && raw[last] == SOH
    ensures Find(raw[eq + 1..], SOH).Some? && eq + 1 + Find(raw[eq + 1..], SOH).value <= last
  {
    assert raw[eq + 1..][last - eq - 1] == SOH;
  }

  lemma {:induction false} SumAfterChange(s: string, i: nat, c: char)
    requires i < |s|
    ensures SumOfBytes(s[i := c]) == SumOfBytes(s) - s[i] as int + c as int
  {
    var n := |s| - 1;
    if i < n {
      SumAfterChange(s[..n], i, c);
      assert s[i := c][..n] == s[..n][i := c];
    } else {
      assert s[i := c][..n] == s[..n];
    }
  }

  /** Two different bytes cannot hide behind each other modulo 256. */
  lemma ChangedByteChangesCheckSum(s: string, i: nat, c: char)
    requires i < |s| && c != s[i] && c as int < 256 && s[i] as int < 256
    ensures CheckSum(s[i := c]) != CheckSum(s)
  {
    SumAfterChange(s, i, c);
    hide SumOfBytes;
    DifferentModulo(SumOfBytes(s[i := c]), SumOfBytes(s));
  }

  lemma DifferentModulo(a: nat, b: nat)
    requires a != b && -256 < a - b < 256
    ensures a % 256 != b % 256
  {}

  /** Damage to any byte before the one that ends the last body field: no assumption on the message at all. */
  lemma DamageInsideIsDetected(fields: seq<Field>, i: nat, c: char)
    requires i < |Covered(fields)| - 1
    requires c != Covered(fields)[i] && c as int < 256 && Covered(fields)[i] as int < 256
    ensures ParseStrictFields(SerializeFields(fields)[i := c]).Err?
  {
    hide Decimal, BeginString, MsgType, Others, Covered, CheckSum, ThreeDigits, FromChars, ParseFields, Body, Texts, Find, FindLastText,
      FindText, FindTagStart, GetField;
    var covered := Covered(fields);
    var x := ThreeDigits(CheckSum(covered));
    TrailerIs(fields);
    CoveredEndsInBody(fields);
    var damaged := covered[i := c];
    var raw := SerializeFields(fields)[i := c];
    assert raw == damaged + TrailerText(x);
    DigitsHaveNoSoh(x);
    assert '=' !in x;
    LastValueIsTrailers(damaged, x);
    TrailerIsLocated(damaged, x);
    assert |raw| == |damaged| + |x| + 4;
    CheckSumReadsBack(CheckSum(covered));
    ChangedByteChangesCheckSum(covered, i, c);
    assert raw[..|damaged|] == damaged;
  }

  /** The fields of the body but the last, and the last. */
  lemma {:induction false} DamagedLastValue(fields: seq<Field>, y: string)
    requires fields != [] && ValuesOk(fields) && NoSoh(y)
    ensures var t := Texts(fields);
            && t != []
            && var r := ParseFields(t[..|t| - 1] + y + [SOH]);
               r.Ok? ==> r.value != [] && r.value[|r.value| - 1].tag == fields[|fields| - 1].tag
  {
    hide FirstField, Decimal, NoSoh;
    var f, rest := fields[0], fields[1..];
    var t := Texts(fields);
    TextsEnd(fields);
    if rest == [] {
      TextsOne(f);
      var g := Field(f.tag, f.value + y);
      assert t[..|t| - 1] + y + [SOH] == FieldText(g) + [];
      NoSohAppend(f.value, y);
      FirstFieldOfText(g, []);
      FieldTextIsLong(g);
      ParseNothing();
    } else {
      var u := Texts(rest);
      TextsEnd(rest);
      var tail := u[..|u| - 1] + y + [SOH];
      assert t == FieldText(f) + u;
      assert t[..|t| - 1] + y + [SOH] == FieldText(f) + tail;
      FirstFieldOfText(f, tail);
      FieldTextIsLong(f);
      assert (FieldText(f) + tail)[|FieldText(f)|..] == tail;
      DamagedLastValue(rest, y);
    }
  }

  lemma NoSohAppend(a: string, b: string)
    requires NoSoh(a) && NoSoh(b)
    ensures NoSoh(a + b)
  {}

  lemma {:induction false} OthersAreNotTrailers(fields: seq<Field>)
    ensures forall i | 0 <= i < |Others(fields)| :: Others(fields)[i].tag != TAG_CHECK_SUM
  {
    if fields != [] { OthersAreNotTrailers(fields[1..]); }
  }

  /** Damage to the delimiter in front of the trailer glues the trailer to the last body field. */
  lemma DamagedDelimiterIsDetected(fields: seq<Field>, c: char)
    requires Delimited(fields) && c != SOH
    ensures Covered(fields) != []
    ensures ParseStrictFields(SerializeFields(fields)[|Covered(fields)| - 1 := c]).Err?
  {
    hide Decimal, BeginString, MsgType, Others, Covered, CheckSum, ThreeDigits, FromChars, ParseFields, Body, Texts, Find, FindLastText,
      FindText, FindTagStart, GetField, NoSoh;
    var covered := Covered(fields);
    var x := ThreeDigits(CheckSum(covered));
    TrailerIs(fields);
    CoveredEndsInBody(fields);
    SerializedIsCanonicalTexts(fields);
    CoveringIsOk(fields);
    var y := [c] + "10=" + x;
    var n := |covered| - 1;
    DigitsHaveNoSoh(x);
    MarkHasNoSoh(c, x);
    assert SerializeFields(fields)[n := c] == covered[..n] + y + [SOH];
    DamagedLastValue(Covering(fields), y);
    OthersAreNotTrailers(fields);
    LastOfCovering(fields);
  }

  lemma MarkHasNoSoh(c: char, x: string)
    requires c != SOH && NoSoh(x)
    ensures NoSoh([c] + "10=" + x)
  {}

  lemma LastOfCovering(fields: seq<Field>)
    requires forall i | 0 <= i < |Others(fields)| :: Others(fields)[i].tag != TAG_CHECK_SUM
    ensures Covering(fields)[|Covering(fields)| - 1].tag != TAG_CHECK_SUM
  {
    hide Decimal, BeginString, MsgType, Others, Body;
  }

  // ---------- Exactly which damage goes unnoticed ----------

  /** Where the three checksum digits start. */
  ghost function DigitsAt(fields: seq<Field>): nat {
    |Covered(fields)| + 3
  }

  /**
  The only damage to one byte that strict parsing accepts: the checksum is 000, and either its first digit became a minus
  sign, or its second or third digit became something that is neither a digit nor a delimiter.
  */
  ghost predicate Unnoticed(fields: seq<Field>, i: nat, c: char) {
    && CheckSum(Covered(fields)) == 0
    && ((i == DigitsAt(fields) && c == '-')
        || ((i == DigitsAt(fields) + 1 || i == DigitsAt(fields) + 2) && !IsDigit(c) && c != SOH))
  }

  /** A buffer of well-formed fields followed by something that is not one field is read up to there. */
  lemma ParseCoveredThen(fields: seq<Field>, post: string)
    requires Delimited(fields) && TagsOk(Others(fields))
    ensures ParseFields(Covered(fields) + post) == Prepend(Covering(fields), ParseFields(post))
  {
    hide Decimal, BeginString, MsgType, Others, Covered, ParseFields, Texts, NoSoh;
    SerializedIsCanonicalTexts(fields);
    CoveringIsOk(fields);
    ParseTexts(Covering(fields), post);
  }

  /** A trailer whose tag or delimiters were damaged is no trailer. */
  ghost predicate NotATrailer(t: string) {
    var r := ParseFields(t);
    r.Ok? ==> r.value != [] && r.value[|r.value| - 1].tag != TAG_CHECK_SUM
  }

  lemma NotATrailerIsRejected(fields: seq<Field>, t: string)
    requires Delimited(fields) && TagsOk(Others(fields)) && NotATrailer(t)
    ensures ParseStrictFields(Covered(fields) + t).Err?
  {
    hide Covering, Covered, ParseFields, GetField, FindTagStart, FindLastText, FromChars, CheckSum, Find, NoSoh;
    ParseCoveredThen(fields, t);
  }

  /** One field of the form tag text, equals sign, value, delimiter. */
  lemma ReadOneField(tagText: string, value: string)
    requires '=' !in tagText && NoSoh(value)
    ensures var t := tagText + "=" + value + [SOH];
            var tag := FromChars(tagText);
            ParseFields(t) == if tag.None? || tag.value <= 0 then Err(FixParseError) else Ok([Field(tag.value, value)])
    ensures FromChars(tagText).Some? ==> INT32_MIN <= FromChars(tagText).value <= INT32_MAX
  {
    hide FromChars, FirstField, NoSoh;
    var t := tagText + "=" + value + [SOH];
    FirstFieldOfParts(tagText, value, []);
    assert t + [] == t;
    assert t[|t|..] == [];
    ParseNothing();
    var tag := FromChars(tagText);
    if tag.Some? && tag.value > 0 { assert [Field(tag.value, value)] + [] == [Field(tag.value, value)]; }
  }

  lemma NoEqualsNoField(t: string)
    requires t != [] && '=' !in t
    ensures ParseFields(t) == Err(FixParseError)
  {}

  /** A damaged first or second character of `10=`. */
  lemma DamagedTag(a: char, b: char, x: string)
    requires NoSoh(x) && |x| == 3 && (a != '1') != (b != '0') && (a == '1' || b == '0')
    ensures NotATrailer([a, b] + "=" + x + [SOH])
  {
    hide FromChars, ParseFields;
    if a == '=' {
      assert [a, b] + "=" + x + [SOH] == [] + "=" + ("0=" + x) + [SOH];
      ReadOneField([], "0=" + x);
      FromCharsOfShort([]);
    } else if b == '=' {
      assert [a, b] + "=" + x + [SOH] == "1" + "=" + ("=" + x) + [SOH];
      ReadOneField("1", "=" + x);
      FromCharsOfShort("1");
    } else {
      ReadOneField([a, b], x);
      FromCharsOfShort([a, b]);
    }
  }

  /** Reading a tag of at most two characters that is not `10` never yields 10. */
  lemma FromCharsOfShort(t: string)
    requires |t| <= 2
    ensures t == [] ==> FromChars(t).None?
    ensures FromChars(t) == Some(10) ==> t == "10"
  {
    hide DigitsValue;
    if |t| == 2 {
      var a, b := t[0], t[1];
      if IsDigit(a) && IsDigit(b) {
        assert t[..2] == t == [a, b];
        DigitCountIs(t, 2);
        ThreeValue(a, b, '0');
      } else if IsDigit(a) {
        assert t[..1] == [a];
        DigitCountIs(t, 1);
        ThreeValue(a, '0', '0');
      } else if a == '-' && IsDigit(b) {
        assert t[1..] == [b] && [b][..1] == [b];
        DigitCountIs([b], 1);
      }
    } else if |t| == 1 {
      if IsDigit(t[0]) {
        assert t[..1] == t == [t[0]];
        DigitCountIs(t, 1);
        ThreeValue(t[0], '0', '0');
      }
    }
  }

  /** Damage to the tag, the equals sign or the final delimiter of the trailer. */
  lemma DamagedFrameOfTrailer(x: string, j: nat, c: char)
    requires AllDigits(x) && |x| == 3 && (j < 3 || j == 6) && c != TrailerText(x)[j]
    ensures NotATrailer(TrailerText(x)[j := c])
  {
    hide ParseFields, DigitCount;
    TrailerChars(x);
    DigitsHaveNoSoh(x);
    var t := TrailerText(x)[j := c];
    if j == 0 {
      assert t == [c, '0'] + "=" + x + [SOH];
      DamagedTag(c, '0', x);
    } else if j == 1 {
      assert t == ['1', c] + "=" + x + [SOH];
      DamagedTag('1', c, x);
    } else if j == 2 {
      assert t == ['1', '0', c] + x + [SOH];
      NoEqualsNoField(t);
    } else {
      assert t == "10=" + x + [c];
      NoDelimiterNoField(x, c);
    }
  }

  lemma NoDelimiterNoField(x: string, c: char)
    requires NoSoh(x) && c != SOH
    ensures ParseFields("10=" + x + [c]) == Err(FixParseError)
  {
    hide FromChars, Find;
    var t := "10=" + x + [c];
    assert t[0] == '1' && t[1] == '0' && t[2] == '=';
    FindIs(t, '=', 2);
    var value := t[3..];
    assert value == x + [c];
    NoSohAppend(x, [c]);
    FindNothing(value, SOH);
  }

  lemma FindNothing(s: string, c: char)
    requires c !in s
    ensures Find(s, c).None?
  {}

  /** Damage to a checksum digit by a delimiter leaves a rest without an equals sign. */
  lemma DelimiterInsideTrailer(x: string, k: nat)
    requires AllDigits(x) && |x| == 3 && k < 3
    ensures ParseFields("10=" + x[k := SOH] + [SOH]) == Err(FixParseError)
  {
    hide FromChars, FirstField, NoSoh;
    var value, rest := x[..k], x[k + 1..] + [SOH];
    var t := "10=" + x[k := SOH] + [SOH];
    DigitsHaveNoSoh(value);
    FirstFieldOfParts("10", value, rest);
    assert t == "10" + "=" + value + [SOH] + rest;
    DigitsHaveNoEquals(x, k + 1);
    NoEqualsNoField(rest);
    if FirstField(t).Some? { assert t[k + 4..] == rest; }
  }

  lemma DigitsHaveNoEquals(x: string, k: nat)
    requires AllDigits(x) && k <= |x|
    ensures '=' !in x[k..] + [SOH]
  {
    forall i | k <= i < |x| ensures x[i] != '=' { assert IsDigit(x[i]); }
  }

  /** Damage to a checksum digit: when the damaged text still reads as the checksum. */
  lemma DamagedDigit(n: nat, k: nat, c: char)
    requires n < 256 && k < 3 && c != ThreeDigits(n)[k] && c != SOH
    ensures FromChars(ThreeDigits(n)[k := c]) == Some(n) <==> n == 0 && (if k == 0 then c == '-' else !IsDigit(c))
  {
    hide FromChars, DigitsValue;
    CheckSumReadsBack(n);
    var x := ThreeDigits(n);
    var a, b, d := x[0], x[1], x[2];
    assert x == [a, b, d];
    ThreeValue(a, b, d);
    if k == 0 {
      assert x[0 := c] == [c, b, d];
      FromCharsOfThree(c, b, d);
      ThreeValue(b, d, '0');
      if IsDigit(c) { ThreeValue(c, b, d); }
    } else if k == 1 {
      assert x[1 := c] == [a, c, d];
      FromCharsOfThree(a, c, d);
      if IsDigit(c) { ThreeValue(a, c, d); }
    } else {
      assert x[2 := c] == [a, b, c];
      FromCharsOfThree(a, b, c);
      if IsDigit(c) { ThreeValue(a, b, c); }
    }
  }

  /** Damage to the trailer itself. */
  lemma DamagedTrailer(fields: seq<Field>, j: nat, c: char)
    requires WellFormed(fields) && j < 7
    requires c != TrailerText(ThreeDigits(CheckSum(Covered(fields))))[j]
    ensures ParseStrictFields(Covered(fields) + TrailerText(ThreeDigits(CheckSum(Covered(fields))))[j := c]).Ok?
       <==> Unnoticed(fields, |Covered(fields)| + j, c)
  {
    hide Covered, ParseFields, FromChars, CheckSum, ThreeDigits, Covering, StrictChecks, BeginString, MsgType, Others, Body, Contains, NoSoh,
      TrailerText, NotATrailer;
    var n := CheckSum(Covered(fields));
    var x := ThreeDigits(n);
    TrailerChars(x);
    if j < 3 || j == 6 {
      DamagedFrameOfTrailer(x, j, c);
      NotATrailerIsRejected(fields, TrailerText(x)[j := c]);
    } else {
      var k := j - 3;
      var y := x[k := c];
      TrailerOf(x, k, c);
      assert c != x[k];
      if c == SOH {
        DelimiterInsideTrailer(x, k);
        TrailerTextIs(y);
        ParseCoveredThen(fields, TrailerText(y));
      } else {
        DigitsHaveNoSoh(x);
        NoSohAfterChange(x, k, c);
        ParseWithTrailer(fields, y);
        StrictOnDamagedDigit(fields, y);
        DamagedDigit(n, k, c);
        DigitIsNotSoh(c);
      }
    }
  }

  lemma StrictOnDamagedDigit(fields: seq<Field>, y: string)
    requires WellFormed(fields) && NoSoh(y)
    requires ParseFields(Covered(fields) + TrailerText(y)) == Ok(Covering(fields) + [Field(TAG_CHECK_SUM, y)])
    ensures ParseStrictFields(Covered(fields) + TrailerText(y)).Ok? <==> FromChars(y) == Some(CheckSum(Covered(fields)))
  {
    hide Covered, ParseFields, FromChars, CheckSum, StrictChecks, BeginString, MsgType, Others, Body, Contains, NoSoh, TrailerText, Decimal;
    StrictChecksOfTrailer(fields, y, Covering(fields) + [Field(TAG_CHECK_SUM, y)]);
  }

  lemma TrailerTextIs(x: string)
    ensures TrailerText(x) == "10=" + x + [SOH]
  {}

  lemma TrailerOf(x: string, k: nat, c: char)
    requires |x| == 3 && k < 3
    ensures TrailerText(x)[k + 3 := c] == TrailerText(x[k := c])
  {}

  lemma NoSohAfterChange(x: string, k: nat, c: char)
    requires NoSoh(x) && k < |x| && c != SOH
    ensures NoSoh(x[k := c])
  {}

  lemma DigitIsNotSoh(c: char)
    ensures IsDigit(c) ==> c != SOH
  {}

  /**
  Corruption of one byte of a serialised message, anywhere in it, by any other byte: strict parsing accepts the result
  exactly in the cases `Unnoticed` lists. In particular no damage before the checksum digits is ever accepted.
  */
  lemma CorruptionIsAcceptedIff(fields: seq<Field>, i: nat, c: char)
    requires WellFormed(fields) && i < |SerializeFields(fields)|
    requires c != SerializeFields(fields)[i] && c as int < 256 && SerializeFields(fields)[i] as int < 256
    ensures ParseStrictFields(SerializeFields(fields)[i := c]).Ok? <==> Unnoticed(fields, i, c)
  {
    hide Covered, ParseStrictFields, FromChars, CheckSum, ThreeDigits, BeginString, MsgType, Others, Body, Contains, NoSoh, TrailerText;
    var covered := Covered(fields);
    var trailer := TrailerText(ThreeDigits(CheckSum(covered)));
    TrailerIs(fields);
    TrailerTextIs(ThreeDigits(CheckSum(covered)));
    var wire := SerializeFields(fields);
    assert wire == covered + trailer;
    CoveredEndsInBody(fields);
    if i < |covered| - 1 {
      assert covered[i] == wire[i];
      DamageInsideIsDetected(fields, i, c);
    } else if i == |covered| - 1 {
      assert wire[i] == SOH;
      DamagedDelimiterIsDetected(fields, c);
    } else {
      var j := i - |covered|;
      assert wire[i] == trailer[j];
      assert wire[i := c] == covered + trailer[j := c];
      DamagedTrailer(fields, j, c);
    }
  }

  // ---------- What is on the wire ----------

  predicate IsPayloadTag(tag: Tag) {
    tag != 8 && tag != 9 && tag != 35 && tag != 10
  }

  /** The fields of a message but its begin string, body length, message type and checksum, each in its place. */
  function Payload(fields: seq<Field>): seq<Field> {
    if fields == [] then []
    else (if IsPayloadTag(fields[0].tag) then [fields[0]] else []) + Payload(fields[1..])
  }

  lemma {:induction false} OthersArePayload(fields: seq<Field>)
    ensures Others(fields) == Payload(fields)
  {
    if fields != [] { OthersArePayload(fields[1..]); }
  }

  lemma PayloadAppend(a: seq<Field>, b: seq<Field>)
    ensures Payload(a + b) == Payload(a) + Payload(b)
  {
    hide Others, Payload;
    OthersAppend(a, b);
    OthersArePayload(a);
    OthersArePayload(b);
    OthersArePayload(a + b);
  }

  lemma PayloadOfOne(f: Field)
    ensures Payload([f]) == if IsPayloadTag(f.tag) then [f] else []
  {
    assert [f][1..] == [];
  }

  lemma PayloadTwice(fields: seq<Field>)
    ensures Payload(Payload(fields)) == Payload(fields)
  {
    hide Others, Payload;
    OthersOfOthers(fields);
    OthersArePayload(fields);
    OthersArePayload(Others(fields));
  }

  /** Reading a tag of the payload reads the payload. */
  lemma {:induction false} GetIsInPayload(fields: seq<Field>, tag: Tag)
    requires IsPayloadTag(tag)
    ensures GetField(Payload(fields), tag) == GetField(fields, tag)
  {
    if fields != [] {
      var f, rest := fields[0], Payload(fields[1..]);
      GetIsInPayload(fields[1..], tag);
      if IsPayloadTag(f.tag) {
        assert Payload(fields) == [f] + rest && ([f] + rest)[1..] == rest;
      } else {
        assert Payload(fields) == [] + rest == rest;
      }
    }
  }

  /**
  The canonical message is the given one: its begin string or FIX.4.4, a body length, its message type or 0, every other
  field in its order and with its repetitions, and a checksum.
  */
  lemma CanonicalIsTheMessage(fields: seq<Field>)
    ensures var c := Canonical(fields);
            var begin, msgType := GetField(fields, 8), GetField(fields, 35);
            && |c| == |Payload(fields)| + 4
            && c[0] == Field(8, if begin.Some? then begin.value else "FIX.4.4")
            && c[1].tag == 9
            && c[2] == Field(35, if msgType.Some? then msgType.value else "0")
            && c[3..|c| - 1] == Payload(fields)
            && c[|c| - 1].tag == 10
            && Payload(c) == Payload(fields)
  {
    hide Decimal, CheckSum, ThreeDigits, Covered, Body, GetField, Others, Payload;
    OthersArePayload(fields);
    var c, p := Canonical(fields), Payload(fields);
    PayloadBetweenOthers(c[0], c[1], c[2], p, c[|c| - 1]);
    assert c == [c[0], c[1], c[2]] + p + [c[|c| - 1]];
    PayloadTwice(fields);
  }

  lemma PayloadBetweenOthers(a: Field, b: Field, c: Field, p: seq<Field>, d: Field)
    requires !IsPayloadTag(a.tag) && !IsPayloadTag(b.tag) && !IsPayloadTag(c.tag) && !IsPayloadTag(d.tag)
    ensures Payload([a, b, c] + p + [d]) == Payload(p)
  {
    hide Payload;
    PayloadOfOne(a);
    PayloadOfOne(b);
    PayloadOfOne(c);
    PayloadOfOne(d);
    PayloadAppend([a], [b]);
    PayloadAppend([a] + [b], [c]);
    assert [a] + [b] + [c] == [a, b, c];
    PayloadAppend([a, b, c], p);
    PayloadAppend([a, b, c] + p, [d]);
  }

  /** Every tag but the two computed ones reads back from the canonical message as it reads from the given one. */
  lemma CanonicalAnswersAlike(fields: seq<Field>, tag: Tag)
    requires IsPayloadTag(tag)
    ensures GetField(Canonical(fields), tag) == GetField(fields, tag)
  {
    hide Canonical, GetField, Payload;
    CanonicalIsTheMessage(fields);
    GetIsInPayload(fields, tag);
    GetIsInPayload(Canonical(fields), tag);
  }

  /** What strict parsing returns for a well-formed message's bytes answers every question as the message does. */
  lemma ReadBackAnswersAlike(fields: seq<Field>, tag: Tag)
    requires WellFormed(fields) && IsPayloadTag(tag)
    ensures var r := ParseStrictFields(SerializeFields(fields));
            && r.Ok? && GetField(r.value, tag) == GetField(fields, tag) && Payload(r.value) == Payload(fields)
  {
    hide Canonical, GetField, Payload, WellFormed, ParseStrictFields, SerializeFields;
    RoundTripIffWellFormed(fields);
    CanonicalIsTheMessage(fields);
    CanonicalAnswersAlike(fields, tag);
  }

  /** A message with some number in place of its body length and some number in place of its checksum. */
  function Wire(begin: string, length: nat, body: string, checkSum: nat): string
    requires checkSum < 1000
  {
    "8=" + begin + [SOH] + "9=" + Decimal(length) + [SOH] + body + "10=" + ThreeDigits(checkSum) + [SOH]
  }

  /** The bytes before the checksum field. */
  function CoveredBytes(begin: string, length: nat, body: string): string {
    "8=" + begin + [SOH] + "9=" + Decimal(length) + [SOH] + body
  }

  /** The two numbers on the wire: the length of the body, and the sum of all bytes before the checksum field modulo 256. */
  lemma WireOfMessage(fields: seq<Field>)
    ensures var begin := Canonical(fields)[0].value;
            var body := Texts(Canonical(fields)[2..|Canonical(fields)| - 1]);
            SerializeFields(fields) == Wire(begin, |body|, body, SumOfBytes(CoveredBytes(begin, |body|, body)) % 256)
  {
    hide Decimal, CheckSum, ThreeDigits, Texts, FieldText, GetField, Others, BeginString, MsgType;
    var c := Canonical(fields);
    assert c[2..|c| - 1] == [Field(TAG_MSG_TYPE, MsgType(fields))] + Others(fields);
    HeadIs(fields);
    TrailerIs(fields);
    CheckSumIs(Covered(fields));
    assert Covered(fields) == CoveredBytes(BeginString(fields), |Body(fields)|, Body(fields));
  }

  lemma CheckSumIs(s: string)
    ensures CheckSum(s) == SumOfBytes(s) % 256
  {}

  ghost function AllFields(begin: string, length: nat, bodyFields: seq<Field>, x: string): seq<Field> {
    [Field(8, begin)] + [Field(9, Decimal(length))] + bodyFields + [Field(10, x)]
  }

  lemma WireIsTexts(begin: string, length: nat, bodyFields: seq<Field>, checkSum: nat)
    requires checkSum < 1000
    ensures Wire(begin, length, Texts(bodyFields), checkSum) == Texts(AllFields(begin, length, bodyFields, ThreeDigits(checkSum)))
  {
    hide Decimal, Texts, ThreeDigits;
    var a, b, c := Field(8, begin), Field(9, Decimal(length)), Field(10, ThreeDigits(checkSum));
    TagTexts();
    assert FieldText(a) == "8=" + begin + [SOH] && FieldText(b) == "9=" + Decimal(length) + [SOH];
    assert FieldText(c) == "10=" + ThreeDigits(checkSum) + [SOH];
    TextsAppend([a], [b]);
    TextsAppend([a] + [b], bodyFields);
    TextsAppend([a] + [b] + bodyFields, [c]);
    TextsOne(a);
    TextsOne(b);
    TextsOne(c);
  }

  lemma AllFieldsAreRead(begin: string, length: nat, bodyFields: seq<Field>, checkSum: nat)
    requires checkSum < 1000 && NoSoh(begin) && ValuesOk(bodyFields) && TagsOk(bodyFields)
    ensures ParseFields(Wire(begin, length, Texts(bodyFields), checkSum)) == Ok(AllFields(begin, length, bodyFields, ThreeDigits(checkSum)))
  {
    hide Decimal, Texts, ThreeDigits, ParseFields, NoSoh;
    var all := AllFields(begin, length, bodyFields, ThreeDigits(checkSum));
    WireIsTexts(begin, length, bodyFields, checkSum);
    DecimalHasNoMarks(length);
    DigitsHaveNoSoh(ThreeDigits(checkSum));
    assert NoSoh(Decimal(length)) by { NoSohMeans(Decimal(length)); }
    ParseTexts(all, []);
    ParseNothing();
    assert Texts(all) + [] == Texts(all) && all + [] == all;
  }

  lemma NoSohMeans(s: string)
    ensures NoSoh(s) <==> SOH !in s
  {}

  /**
  Strict parsing checks both numbers: a message with any numbers in their places is accepted exactly when the first is the
  length of the body and the second the sum of all bytes before the checksum field modulo 256.
  */
  lemma StrictAcceptsIff(begin: string, length: nat, bodyFields: seq<Field>, checkSum: nat)
    requires checkSum < 1000 && NoSoh(begin) && !Contains(begin, "9=")
    requires bodyFields != [] && ValuesOk(bodyFields) && TagsOk(bodyFields) && |Texts(bodyFields)| <= INT32_MAX
    ensures var body := Texts(bodyFields);
            ParseStrictFields(Wire(begin, length, body, checkSum)).Ok?
            <==> length == |body| && checkSum == SumOfBytes(CoveredBytes(begin, length, body)) % 256
  {
    hide Decimal, Texts, ThreeDigits, ParseFields, NoSoh, Contains, FindTagStart, Find, FindLastText, FromChars, SumOfBytes, TrailerText;
    var body, x := Texts(bodyFields), ThreeDigits(checkSum);
    var covered, raw := CoveredBytes(begin, length, body), Wire(begin, length, body, checkSum);
    var parsed := AllFields(begin, length, bodyFields, x);
    AllFieldsAreRead(begin, length, bodyFields, checkSum);
    LengthAndTrailerAreFound(begin, length, body, x);
    TrailerTextIs(x);
    assert raw == covered + TrailerText(x);
    FirstNine(begin, length, bodyFields, x);
    WireStarts(begin, length, body, x, bodyFields);
    FromCharsOfDecimal(length, []);
    assert Decimal(length) + [] == Decimal(length);
    CheckSumReadsBack(checkSum);
    assert raw[..|covered|] == covered;
  }

  lemma FirstNine(begin: string, length: nat, bodyFields: seq<Field>, x: string)
    ensures var all := AllFields(begin, length, bodyFields, x);
            GetField(all, TAG_BODY_LENGTH) == Some(Decimal(length)) && all != [] && all[|all| - 1] == Field(10, x)
  {
    hide Decimal;
    var all := AllFields(begin, length, bodyFields, x);
    assert all[0] == Field(8, begin) && all[1..][0] == Field(9, Decimal(length));
  }

  lemma LengthAndTrailerAreFound(begin: string, length: nat, body: string, x: string)
    requires NoSoh(begin) && !Contains(begin, "9=")
    ensures var raw := CoveredBytes(begin, length, body) + TrailerText(x);
            var pos := |begin| + 3;
            && FindTagStart(raw, "9=") == Some(pos) && pos <= |raw|
            && Find(raw[pos..], SOH).Some?
            && pos + Find(raw[pos..], SOH).value + 1 == |CoveredBytes(begin, length, body)| - |body|
  {
    hide Decimal, Contains, FindTagStart, Find, TrailerText;
    var trailer, digits, pos := TrailerText(x), Decimal(length), |begin| + 3;
    var raw, tail := CoveredBytes(begin, length, body) + trailer, digits + [SOH] + body + trailer;
    assert raw == HeadText(begin, tail);
    BodyLengthIsLocated(begin, tail);
    assert raw[pos..] == "9=" + digits + [SOH] + (body + trailer);
    DecimalHasNoMarks(length);
    EndOfLength(digits, body + trailer);
  }

  lemma WireStarts(begin: string, length: nat, body: string, x: string, bodyFields: seq<Field>)
    requires bodyFields != [] && body == Texts(bodyFields) && AllDigits(x)
    ensures var covered := CoveredBytes(begin, length, body);
            && body != [] && covered != []
            && FindLastText(covered + TrailerText(x), TrailerMark(), |covered + TrailerText(x)|) == Some(|covered| - 1)
  {
    hide Decimal, Texts, FindLastText;
    var covered := CoveredBytes(begin, length, body);
    TextsEnd(bodyFields);
    assert covered[|covered| - 1] == body[|body| - 1];
    DigitsHaveNoSoh(x);
    TrailerIsLocated(covered, x);
  }

  /** Nothing is accepted without a body length, or without a checksum at its end. */
  lemma StrictNeedsBothNumbers(raw: string)
    ensures var r := ParseStrictFields(raw);
            r.Ok? ==> ParseFields(raw) == r && GetField(r.value, 9).Some? && r.value != [] && r.value[|r.value| - 1].tag == 10
  {
    hide ParseFields, GetField, FindTagStart, Find, FindLastText, FromChars, CheckSum;
  }

  // ---------- Both findings at an input ----------

  /** A well-formed message: type 0, and two characters of text. */
  function ZeroSumMessage(): seq<Field> {
    [Field(TAG_MSG_TYPE, "0"), Field(58, "!d")]
  }

  function ZeroSumText(): string {
    "8=FIX.4.4" + [SOH] + "9=11" + [SOH] + "35=0" + [SOH] + "58=!d" + [SOH]
  }

  lemma ZeroSumIsCovered()
    ensures Covered(ZeroSumMessage()) == ZeroSumText() && |Body(ZeroSumMessage())| == 11
    ensures BeginString(ZeroSumMessage()) == "FIX.4.4" && MsgType(ZeroSumMessage()) == "0"
    ensures Others(ZeroSumMessage()) == [Field(58, "!d")]
  {
    var fields := ZeroSumMessage();
    hide Texts, FieldText, Decimal, GetField;
    ZeroSumHeader();
    assert Others(fields) == [Field(58, "!d")] by { assert fields[1..][1..] == []; }
    TextsOfTwo(Field(TAG_MSG_TYPE, "0"), Field(58, "!d"));
    TextsOfTwo(Field(TAG_BEGIN_STRING, "FIX.4.4"), Field(TAG_BODY_LENGTH, Decimal(11)));
    TwoDigits(35);
    TwoDigits(58);
    TwoDigits(11);
    OneDigit(8);
    OneDigit(9);
    FieldTextIs(Field(TAG_MSG_TYPE, "0"), "35");
    FieldTextIs(Field(58, "!d"), "58");
    FieldTextIs(Field(TAG_BEGIN_STRING, "FIX.4.4"), "8");
    FieldTextIs(Field(TAG_BODY_LENGTH, "11"), "9");
    assert Body(fields) == "35=0" + [SOH] + "58=!d" + [SOH];
  }

  lemma ZeroSumHeader()
    ensures BeginString(ZeroSumMessage()) == "FIX.4.4" && MsgType(ZeroSumMessage()) == "0"
  {
    assert ZeroSumMessage()[1..] == [Field(58, "!d")] && ZeroSumMessage()[1..][1..] == [];
  }

  lemma FieldTextIs(f: Field, tag: string)
    requires Decimal(f.tag) == tag
    ensures FieldText(f) == tag + "=" + f.value + [SOH]
  {}

  lemma TextsOfTwo(a: Field, b: Field)
    ensures Texts([a] + [b]) == Texts([a, b]) == FieldText(a) + FieldText(b)
  {
    assert [a] + [b] == [a, b] && [a, b][1..] == [b] && [b][1..] == [];
    assert Texts([b]) == FieldText(b) + [] == FieldText(b);
  }

  lemma OneDigit(n: nat)
    requires n < 10
    ensures Decimal(n) == [DigitChar(n)]
  {}

  lemma TwoDigits(n: nat)
    requires 10 <= n < 100
    ensures Decimal(n) == [DigitChar(n / 10), DigitChar(n % 10)]
  {
    OneDigit(n / 10);
    assert Digits(n) == Digits(n / 10) + [DigitChar(n % 10)];
  }

  lemma {:induction false} SumOfJoined(a: string, b: string)
    ensures SumOfBytes(a + b) == SumOfBytes(a) + SumOfBytes(b)
  {
    if b == [] {
      assert a + b == a;
    } else {
      assert (a + b)[..|a + b| - 1] == a + b[..|b| - 1];
      SumOfJoined(a, b[..|b| - 1]);
    }
  }

  lemma SumOfTwo(a: char, b: char)
    ensures SumOfBytes([a, b]) == a as int + b as int
  {
    var s: string := [a, b];
    assert s[..2] == s && s[..0] == [];
    SumPrefix(s, 0);
    SumPrefix(s, 1);
  }

  lemma SumOfFour(a: char, b: char, c: char, d: char)
    ensures SumOfBytes([a, b, c, d]) == a as int + b as int + c as int + d as int
  {
    SumOfTwo(a, b);
    SumOfTwo(c, d);
    SumOfJoined([a, b], [c, d]);
    assert [a, b] + [c, d] == [a, b, c, d];
  }

  lemma ZeroSumIsZero()
    ensures CheckSum(ZeroSumText()) == 0
  {
    hide SumOfBytes;
    var a, b, c, d, e, f, g := "8=FI", "X.4.", "4" + [SOH] + "9=", "11" + [SOH] + "3", "5=0" + [SOH], "58=!", "d" + [SOH];
    SumOfFour('8', '=', 'F', 'I');
    SumOfFour('X', '.', '4', '.');
    SumOfFour('4', SOH, '9', '=');
    SumOfFour('1', '1', SOH, '3');
    SumOfFour('5', '=', '0', SOH);
    SumOfFour('5', '8', '=', '!');
    SumOfTwo('d', SOH);
    assert a == ['8', '=', 'F', 'I'] && b == ['X', '.', '4', '.'] && c == ['4', SOH, '9', '='] && d == ['1', '1', SOH, '3'];
    assert e == ['5', '=', '0', SOH] && f == ['5', '8', '=', '!'] && g == ['d', SOH];
    SumOfJoined(a, b);
    SumOfJoined(a + b, c);
    SumOfJoined(a + b + c, d);
    SumOfJoined(a + b + c + d, e);
    SumOfJoined(a + b + c + d + e, f);
    SumOfJoined(a + b + c + d + e + f, g);
    assert SumOfBytes(a + b + c + d + e + f + g) == 1280;
    assert ZeroSumText() == a + b + c + d + e + f + g;
  }

  lemma NoNineInside()
    ensures !Contains("FIX.4.4", "9=")
  {
    var s := "FIX.4.4";
    forall i: nat ensures !OccursAt(s, "9=", i) {
      if i + 2 <= |s| { assert s[i..i + 2][0] == s[i]; }
    }
  }

  lemma ZeroSumIsWellFormed()
    ensures WellFormed(ZeroSumMessage())
  {
    hide Body, BeginString, MsgType, Others;
    ZeroSumIsCovered();
    NoNineInside();
  }

  /** Damage that strict parsing accepts exists: the second checksum digit of a message whose checksum is 000. */
  lemma CorruptionCanBeAccepted()
    ensures var fields, i := ZeroSumMessage(), DigitsAt(ZeroSumMessage()) + 1;
            && WellFormed(fields) && i < |SerializeFields(fields)| && SerializeFields(fields)[i] != 'x'
            && ParseStrictFields(SerializeFields(fields)[i := 'x']).Ok?
  {
    hide Body, BeginString, MsgType, Others, ParseStrictFields, CheckSum, Covered, WellFormed, ThreeDigits, ZeroSumText, ZeroSumMessage;
    var fields := ZeroSumMessage();
    ZeroSumIsCovered();
    ZeroSumIsZero();
    ZeroSumIsWellFormed();
    var covered, x := Covered(fields), ThreeDigits(CheckSum(Covered(fields)));
    TrailerIs(fields);
    TrailerTextIs(x);
    var i := DigitsAt(fields) + 1;
    assert SerializeFields(fields) == covered + TrailerText(x);
    assert SerializeFields(fields)[i] == x[1];
    assert IsDigit(x[1]);
    CorruptionIsAcceptedIff(fields, i, 'x');
  }

  /** And a message that cannot be read back: its begin string holds the tag of the body length. */
  lemma BeginStringCanHideTheLength()
    ensures var fields := [Field(TAG_BEGIN_STRING, "FIX9=")];
            Delimited(fields) && ParseStrictFields(SerializeFields(fields)).Err?
  {
    hide ParseStrictFields, SerializeFields, OccursAt;
    var fields := [Field(TAG_BEGIN_STRING, "FIX9=")];
    assert OccursAt("FIX9=", "9=", 3) by { NineInside(); }
    OnlyBeginString("FIX9=");
    BeginStringHidesTheLength(fields);
  }

  lemma OnlyBeginString(begin: string)
    ensures var fields := [Field(TAG_BEGIN_STRING, begin)];
            BeginString(fields) == begin && MsgType(fields) == "0" && Others(fields) == []
  {
    var fields := [Field(TAG_BEGIN_STRING, begin)];
    var rest := fields[1..];
    assert rest == [];
    assert GetField(rest, TAG_MSG_TYPE).None? && Others(rest) == [];
    assert GetField(fields, TAG_MSG_TYPE) == GetField(rest, TAG_MSG_TYPE);
    assert Others(fields) == [] + Others(rest);
  }

  lemma NineInside()
    ensures OccursAt("FIX9=", "9=", 3)
  {
    assert "FIX9="[3..5] == "9=";
  }
}
