/** The FIX tag-value message: parsing, strict parsing and serialising, with the loops of the implementation proved against functions. */
module FixMessages {
  import opened Types
  import opened Text
  import opened FixText

  type Tag = t: int | INT32_MIN <= t <= INT32_MAX

  datatype Field = Field(tag: Tag, value: string)

  const TAG_BEGIN_STRING: Tag := 8
  const TAG_BODY_LENGTH: Tag := 9
  const TAG_CHECK_SUM: Tag := 10
  const TAG_MSG_TYPE: Tag := 35

  // ---------- Checksum ----------

  function SumOfBytes(s: string): nat {
    if s == [] then 0 else SumOfBytes(s[..|s| - 1]) + s[|s| - 1] as int
  }

  function CheckSum(s: string): (r: nat)
    ensures r < 256
  {
    SumOfBytes(s) % 256
  }

  lemma SumPrefix(s: string, k: nat)
    requires k < |s|
    ensures SumOfBytes(s[..k + 1]) == SumOfBytes(s[..k]) + s[k] as int
  {
    assert s[..k + 1][..k] == s[..k];
  }

  /** The accumulator is 32 bits wide; its wrap-around is invisible modulo 256. */
  method ComputeCheckSum(buf: string) returns (r: nat)
    ensures r == CheckSum(buf)
  {
    var sum := 0;
    for k := 0 to |buf|
      invariant 0 <= sum < 0x1_0000_0000 && sum % 256 == SumOfBytes(buf[..k]) % 256
    {
      SumPrefix(buf, k);
      sum := (sum + buf[k] as int) % 0x1_0000_0000;
    }
    assert buf[..|buf|] == buf;
    r := sum % 256;
  }

  // ---------- Parsing ----------

  /**
  The first field of a non-empty buffer and how many characters it takes up. The tag is whatever number the text
  before the first equals sign starts with; the value ends at the first delimiter after that sign.
  */
  function FirstField(s: string): (r: Option<(Field, nat)>)
    ensures r.Some? ==> 0 < r.value.1 <= |s| && r.value.0.tag > 0
  {
    var eq := Find(s, '=');
    if eq.None? then None
    else
      var soh := Find(s[eq.value + 1..], SOH);
      if soh.None? then None
      else
        var tag := FromChars(s[..eq.value]);
        if tag.None? || tag.value <= 0 then None
        else Some((Field(tag.value, s[eq.value + 1..][..soh.value]), eq.value + soh.value + 2))
  }

  /** Read fields off the front of a buffer until it is used up. */
  function ParseFields(raw: string): Result<seq<Field>>
    decreases |raw|
  {
    if raw == [] then Ok([])
    else
      var first := FirstField(raw);
      if first.None? then Err(FixParseError)
      else Prepend([first.value.0], ParseFields(raw[first.value.1..]))
  }

  function Prepend(fields: seq<Field>, r: Result<seq<Field>>): Result<seq<Field>> {
    if r.Err? then r else Ok(fields + r.value)
  }

  function GetField(fields: seq<Field>, tag: Tag): Option<string> {
    if fields == [] then None
    else if fields[0].tag == tag then Some(fields[0].value)
    else GetField(fields[1..], tag)
  }

  /** The start of a tag: the first occurrence of the text, if it is at the start or right after a delimiter. */
  function FindTagStart(raw: string, needle: string): (r: Option<nat>)
    ensures r.Some? ==> r.value <= |raw|
  {
    var pos := FindText(raw, needle, 0);
    if pos.None? then None
    else if pos.value == 0 || raw[pos.value - 1] == SOH then pos
    else None
  }

  function TrailerMark(): string {
    [SOH] + "10="
  }

  /** The checks of the strict parser, after the fields were read. */
  function StrictChecks(raw: string, fields: seq<Field>): bool {
    var bodyLength := GetField(fields, TAG_BODY_LENGTH);
    var bodyLengthPos := FindTagStart(raw, "9=");
    && bodyLength.Some?
    && bodyLengthPos.Some?
    && var soh := Find(raw[bodyLengthPos.value..], SOH);
       && soh.Some?
       && var bodyStart := bodyLengthPos.value + soh.value + 1;
          && fields != [] && fields[|fields| - 1].tag == TAG_CHECK_SUM
          && var mark := FindLastText(raw, TrailerMark(), |raw|);
             && mark.Some? && mark.value >= bodyStart
             && FromChars(bodyLength.value) == Some(mark.value - bodyStart + 1)
             && FromChars(fields[|fields| - 1].value) == Some(CheckSum(raw[..mark.value + 1]))
  }

  function ParseStrictFields(raw: string): Result<seq<Field>> {
    var parsed := ParseFields(raw);
    if parsed.Err? then parsed
    else if StrictChecks(raw, parsed.value) then parsed
    else Err(FixParseError)
  }

  // ---------- Serialising ----------

  predicate IsComputedOrHeader(tag: Tag) {
    tag == TAG_BEGIN_STRING || tag == TAG_BODY_LENGTH || tag == TAG_MSG_TYPE || tag == TAG_CHECK_SUM
  }

  function FieldText(f: Field): string {
    Decimal(f.tag) + "=" + f.value + [SOH]
  }

  function Texts(fields: seq<Field>): string {
    if fields == [] then [] else FieldText(fields[0]) + Texts(fields[1..])
  }

  function Others(fields: seq<Field>): seq<Field> {
    if fields == [] then []
    else (if IsComputedOrHeader(fields[0].tag) then [] else [fields[0]]) + Others(fields[1..])
  }

  function BeginString(fields: seq<Field>): string {
    var v := GetField(fields, TAG_BEGIN_STRING);
    if v.Some? then v.value else "FIX.4.4"
  }

  function MsgType(fields: seq<Field>): string {
    var v := GetField(fields, TAG_MSG_TYPE);
    if v.Some? then v.value else "0"
  }

  /** What BodyLength counts. */
  function Body(fields: seq<Field>): string {
    Texts([Field(TAG_MSG_TYPE, MsgType(fields))] + Others(fields))
  }

  /** Everything the checksum covers. */
  function Covered(fields: seq<Field>): string {
    Texts([Field(TAG_BEGIN_STRING, BeginString(fields)), Field(TAG_BODY_LENGTH, Decimal(|Body(fields)|))]) + Body(fields)
  }

  function Trailer(fields: seq<Field>): string {
    FieldText(Field(TAG_CHECK_SUM, ThreeDigits(CheckSum(Covered(fields)))))
  }

  function SerializeFields(fields: seq<Field>): string {
    Covered(fields) + Trailer(fields)
  }

  /** The fields a serialised message carries, in wire order. */
  function Canonical(fields: seq<Field>): seq<Field> {
    [Field(TAG_BEGIN_STRING, BeginString(fields)), Field(TAG_BODY_LENGTH, Decimal(|Body(fields)|)),
     Field(TAG_MSG_TYPE, MsgType(fields))]
    + Others(fields)
    + [Field(TAG_CHECK_SUM, ThreeDigits(CheckSum(Covered(fields))))]
  }

  function SetField(fields: seq<Field>, tag: Tag, value: string): seq<Field> {
    if fields == [] then [Field(tag, value)]
    else if fields[0].tag == tag then [Field(tag, value)] + fields[1..]
    else [fields[0]] + SetField(fields[1..], tag, value)
  }

  /** Setting a tag is what reading it then sees; every other tag reads as before. */
  lemma {:induction false} SetIsWhatGetSees(fields: seq<Field>, tag: Tag, value: string, other: Tag)
    ensures GetField(SetField(fields, tag, value), other) == if other == tag then Some(value) else GetField(fields, other)
  {
    if fields != [] && fields[0].tag != tag {
      SetIsWhatGetSees(fields[1..], tag, value, other);
      assert SetField(fields, tag, value)[1..] == SetField(fields[1..], tag, value);
    }
  }

  /** Setting changes the first field with the tag in its place, or adds one field at the end; every other field stays. */
  lemma {:induction false} SetChangesOneField(fields: seq<Field>, tag: Tag, value: string) returns (k: nat)
    ensures var after := SetField(fields, tag, value);
            && k <= |fields| && (forall j | 0 <= j < k :: fields[j].tag != tag)
            && (k < |fields| ==> fields[k].tag == tag)
            && after == fields[..k] + [Field(tag, value)] + (if k < |fields| then fields[k + 1..] else [])
  {
    if fields == [] {
      k := 0;
    } else if fields[0].tag == tag {
      k := 0;
    } else {
      var j := SetChangesOneField(fields[1..], tag, value);
      k := j + 1;
      assert fields[..k] == [fields[0]] + fields[1..][..j];
    }
  }

  // ---------- The class ----------

  class FixMessage {
    var fields: seq<Field>

    constructor (fields: seq<Field>)
      ensures this.fields == fields
    {
      this.fields := fields;
    }

    /** Parse a raw buffer without verifying its checksum. */
    static method Parse(raw: string) returns (r: Result<FixMessage>)
      ensures r.Ok? ==> fresh(r.value) && ParseFields(raw) == Ok(r.value.fields)
      ensures r.Err? ==> ParseFields(raw) == Err(FixParseError) && r.error == FixParseError
    {
      hide FromChars, ParseFields, FirstField, Find;
      var fields: seq<Field> := [];
      var pos := 0;
      assert raw[0..] == raw;
      PrependNothing(ParseFields(raw));
      while pos < |raw|
        invariant pos <= |raw|
        invariant ParseFields(raw) == Prepend(fields, ParseFields(raw[pos..]))
        decreases |raw| - pos
      {
        ParseUnfold(raw, pos);
        NoFirstField(raw, pos);
        var eq := Find(raw[pos..], '=');
        if eq.None? {
          return Err(FixParseError);
        }
        var afterEq := pos + eq.value + 1;
        var soh := Find(raw[afterEq..], SOH);
        if soh.None? {
          return Err(FixParseError);
        }
        var end := afterEq + soh.value;
        FirstFieldAt(raw, pos, afterEq, end);
        var tag := FromChars(raw[pos..afterEq - 1]);
        if tag.None? || tag.value <= 0 {
          return Err(FixParseError);
        }
        FromCharsRange(raw[pos..afterEq - 1]);
        var field := Field(tag.value, raw[afterEq..end]);
        PrependStep(fields, field, ParseFields(raw[end + 1..]));
        fields := fields + [field];
        pos := end + 1;
      }
      assert raw[pos..] == [];
      ParseNothing();
      var msg := new FixMessage(fields);
      assert fields + [] == fields;
      r := Ok(msg);
    }

    /** Parse, then verify body length and checksum. */
    static method ParseStrict(raw: string) returns (r: Result<FixMessage>)
      ensures r.Ok? ==> fresh(r.value) && ParseStrictFields(raw) == Ok(r.value.fields)
      ensures r.Err? ==> ParseStrictFields(raw) == Err(FixParseError) && r.error == FixParseError
    {
      hide FromChars, ParseFields, GetField, Find, FindLastText, FindTagStart, CheckSum;
      r := Parse(raw);
      if r.Err? {
        return;
      }
      var msg := r.value;
      r := Err(FixParseError);
      var bodyLength := msg.Get(TAG_BODY_LENGTH);
      var bodyLengthPos := FindTagStart(raw, "9=");
      if bodyLength.None? || bodyLengthPos.None? {
        return;
      }
      var soh := Find(raw[bodyLengthPos.value..], SOH);
      if soh.None? {
        return;
      }
      var bodyStart := bodyLengthPos.value + soh.value + 1;
      if msg.fields == [] || msg.fields[|msg.fields| - 1].tag != TAG_CHECK_SUM {
        return;
      }
      var mark := FindLastText(raw, TrailerMark(), |raw|);
      if mark.None? || mark.value < bodyStart {
        return;
      }
      var claimedLength := FromChars(bodyLength.value);
      if claimedLength.None? || claimedLength.value != mark.value - bodyStart + 1 {
        return;
      }
      var computed := ComputeCheckSum(raw[..mark.value + 1]);
      var claimed := FromChars(msg.fields[|msg.fields| - 1].value);
      if claimed.None? || claimed.value != computed {
        return;
      }
      r := Ok(msg);
    }

    /** The first value of a tag. */
    method Get(tag: Tag) returns (r: Option<string>)
      ensures r == GetField(fields, tag)
    {
      for k := 0 to |fields|
        invariant GetField(fields, tag) == GetField(fields[k..], tag)
      {
        if fields[k].tag == tag {
          return Some(fields[k].value);
        }
        assert fields[k..][1..] == fields[k + 1..];
      }
      r := None;
    }

    /** Overwrite the first field with this tag, or append one. */
    method Set(tag: Tag, value: string)
      modifies this
      ensures fields == SetField(old(fields), tag, value)
    {
      hide SetField;
      assert fields[..0] + SetField(fields[0..], tag, value) == SetField(fields, tag, value) by { assert fields[0..] == fields; }
      for k := 0 to |fields|
        invariant fields == old(fields)
        invariant SetField(fields, tag, value) == fields[..k] + SetField(fields[k..], tag, value)
      {
        SetUnfold(fields, k, tag, value);
        if fields[k].tag == tag {
          fields := fields[k := Field(tag, value)];
          return;
        }
      }
      SetAtEnd(tag, value);
      assert fields[|fields|..] == [] && fields[..|fields|] == fields;
      fields := fields + [Field(tag, value)];
    }

    /** Serialise to wire format, computing body length and checksum. */
    method Serialize() returns (wire: string)
      ensures wire == SerializeFields(fields)
    {
      hide Decimal, CheckSum, ThreeDigits, Texts, Others, GetField;
      var begin := BeginString(fields);
      var msgType := MsgType(fields);
      TagTexts();
      var body := "35=" + msgType + [SOH];
      BodyStarts(fields);
      assert fields[0..] == fields;
      for k := 0 to |fields|
        invariant Body(fields) == body + Texts(Others(fields[k..]))
      {
        var f := fields[k];
        BodyContinues(fields, k, body);
        if !IsComputedOrHeader(f.tag) {
          body := body + (Decimal(f.tag) + "=" + f.value + [SOH]);
        }
      }
      assert fields[|fields|..] == [];
      NoOthers();
      assert body + [] == body;
      var prefix := "8=" + begin + [SOH] + ("9=" + Decimal(|body|) + [SOH]);
      HeadIs(fields);
      var withoutCheckSum := prefix + body;
      var cs := ComputeCheckSum(withoutCheckSum);
      wire := withoutCheckSum + ("10=" + ThreeDigits(cs) + [SOH]);
      TrailerIs(fields);
    }
  }

  lemma BodyStarts(fields: seq<Field>)
    ensures Body(fields) == "35=" + MsgType(fields) + [SOH] + Texts(Others(fields))
  {
    hide Decimal, Others, GetField;
    TagTexts();
    TextsCons(Field(TAG_MSG_TYPE, MsgType(fields)), Others(fields));
    assert "35" + "=" == "35=";
  }

  lemma BodyContinues(fields: seq<Field>, k: nat, body: string)
    requires k < |fields| && Body(fields) == body + Texts(Others(fields[k..]))
    ensures Body(fields) == (if IsComputedOrHeader(fields[k].tag) then body else body + FieldText(fields[k])) + Texts(Others(fields[k + 1..]))
  {
    hide FieldText, Body;
    var f := fields[k];
    assert fields[k..][1..] == fields[k + 1..];
    if IsComputedOrHeader(f.tag) {
      assert Others(fields[k..]) == Others(fields[k + 1..]);
    } else {
      assert Others(fields[k..]) == [f] + Others(fields[k + 1..]);
      TextsCons(f, Others(fields[k + 1..]));
      assert body + (FieldText(f) + Texts(Others(fields[k + 1..]))) == body + FieldText(f) + Texts(Others(fields[k + 1..]));
    }
  }

  lemma NoOthers()
    ensures Texts(Others([])) == []
  {}

  lemma HeadIs(fields: seq<Field>)
    ensures Covered(fields) == "8=" + BeginString(fields) + [SOH] + ("9=" + Decimal(|Body(fields)|) + [SOH]) + Body(fields)
  {
    hide Decimal, Body, GetField;
    TagTexts();
    var a, b := Field(TAG_BEGIN_STRING, BeginString(fields)), Field(TAG_BODY_LENGTH, Decimal(|Body(fields)|));
    TextsCons(a, [b]);
    TextsCons(b, []);
    assert [a] + [b] == [a, b] && [b] + [] == [b];
    assert FieldText(b) + [] == FieldText(b);
    assert "8" + "=" == "8=" && "9" + "=" == "9=";
  }

  lemma TrailerIs(fields: seq<Field>)
    ensures Trailer(fields) == "10=" + ThreeDigits(CheckSum(Covered(fields))) + [SOH]
  {
    hide Decimal, Covered, CheckSum, ThreeDigits;
    TagTexts();
    assert "10" + "=" == "10=";
  }

  // ---------- Loop support ----------

  lemma SetUnfold(fields: seq<Field>, k: nat, tag: Tag, value: string)
    requires k < |fields|
    ensures fields[..k] + SetField(fields[k..], tag, value)
         == if fields[k].tag == tag then fields[k := Field(tag, value)]
            else fields[..k + 1] + SetField(fields[k + 1..], tag, value)
  {
    hide SetField;
    SetHead(fields[k..], tag, value);
    assert fields[k..][1..] == fields[k + 1..];
    var after := SetField(fields[k + 1..], tag, value);
    if fields[k].tag == tag {
      assert fields[k := Field(tag, value)] == fields[..k] + ([Field(tag, value)] + fields[k + 1..]);
    } else {
      assert fields[..k + 1] + after == fields[..k] + ([fields[k]] + after);
    }
  }

  lemma SetHead(fields: seq<Field>, tag: Tag, value: string)
    requires fields != []
    ensures SetField(fields, tag, value)
         == if fields[0].tag == tag then [Field(tag, value)] + fields[1..] else [fields[0]] + SetField(fields[1..], tag, value)
  {}

  lemma SetAtEnd(tag: Tag, value: string)
    ensures SetField([], tag, value) == [Field(tag, value)]
  {}

  lemma PrependNothing(r: Result<seq<Field>>)
    ensures Prepend([], r) == r
  {
    if r.Ok? { assert [] + r.value == r.value; }
  }

  lemma ParseNothing()
    ensures ParseFields([]) == Ok([])
  {}

  /** One turn of the parser's loop, in terms of positions in the whole buffer. */
  lemma FirstFieldAt(raw: string, pos: nat, afterEq: nat, end: nat)
    requires pos < afterEq <= |raw| && Find(raw[pos..], '=') == Some(afterEq - 1 - pos)
    requires afterEq <= end < |raw| && Find(raw[afterEq..], SOH) == Some(end - afterEq)
    ensures FirstField(raw[pos..])
         == var tag := FromChars(raw[pos..afterEq - 1]);
            if tag.None? || tag.value <= 0 then None else Some((Field(tag.value, raw[afterEq..end]), end + 1 - pos))
  {
    hide FromChars, Find;
    SlicesOfSuffix(raw, pos, afterEq, end);
  }

  lemma SlicesOfSuffix(raw: string, pos: nat, afterEq: nat, end: nat)
    requires pos < afterEq <= end <= |raw|
    ensures raw[pos..][afterEq - pos..] == raw[afterEq..]
    ensures raw[pos..][..afterEq - 1 - pos] == raw[pos..afterEq - 1]
    ensures raw[afterEq..][..end - afterEq] == raw[afterEq..end]
  {}

  lemma NoFirstField(raw: string, pos: nat)
    requires pos <= |raw|
    ensures Find(raw[pos..], '=').None? ==> FirstField(raw[pos..]).None?
    ensures var eq := Find(raw[pos..], '=');
            eq.Some? && Find(raw[pos + eq.value + 1..], SOH).None? ==> FirstField(raw[pos..]).None?
  {
    hide FromChars, Find;
    var eq := Find(raw[pos..], '=');
    if eq.Some? { assert raw[pos..][eq.value + 1..] == raw[pos + eq.value + 1..]; }
  }

  lemma ParseUnfold(raw: string, pos: nat)
    requires pos < |raw|
    ensures var first := FirstField(raw[pos..]);
            ParseFields(raw[pos..]) == if first.None? then Err(FixParseError)
                                       else Prepend([first.value.0], ParseFields(raw[pos + first.value.1..]))
  {
    hide FirstField;
    var first := FirstField(raw[pos..]);
    if first.Some? { assert raw[pos..][first.value.1..] == raw[pos + first.value.1..]; }
  }

  /** Every parse error is the same error. */
  lemma {:induction false} ParseErrs(raw: string)
    ensures ParseFields(raw).Err? ==> ParseFields(raw) == Err(FixParseError)
    decreases |raw|
  {
    hide FirstField;
    if raw != [] {
      var first := FirstField(raw);
      if first.Some? { ParseErrs(raw[first.value.1..]); }
    }
  }

  lemma PrependStep(fields: seq<Field>, f: Field, r: Result<seq<Field>>)
    ensures Prepend(fields, Prepend([f], r)) == Prepend(fields + [f], r)
  {
    if r.Ok? { assert fields + ([f] + r.value) == fields + [f] + r.value; }
  }

  lemma TextsCons(f: Field, fields: seq<Field>)
    ensures Texts([f] + fields) == FieldText(f) + Texts(fields)
  {
    assert ([f] + fields)[1..] == fields;
  }

  lemma TagTexts()
    ensures Decimal(8) == "8" && Decimal(9) == "9" && Decimal(10) == "10" && Decimal(35) == "35"
  {
    assert Digits(1) == "1" && Digits(3) == "3";
    assert Digits(10) == Digits(1) + [DigitChar(0)];
    assert Digits(35) == Digits(3) + [DigitChar(5)];
  }
}
