/** Decoding of submitted forms (app.py): multi-valued field lookup,
    `extract_data`, the presence-based "seeking" flags and the genre codec. */
module Forms {
  import opened Base

  /** A submitted form: (field, value) pairs in submission order. A field may
      repeat (the genres multi-select) or be absent (an unticked checkbox). */
  type Form = seq<(string, string)>

  /** `request.form.getlist(key)`: every value of `key`, in submission order. */
  function GetList(f: Form, key: string): seq<string>
  {
    if f == [] then [] else (if f[0].0 == key then [f[0].1] else []) + GetList(f[1..], key)
  }

  /** `request.form.get(key)`: the first value of `key`, or None when it is absent. */
  function Get(f: Form, key: string): Option<string>
  {
    if f == [] then None else if f[0].0 == key then Some(f[0].1) else Get(f[1..], key)
  }

  /** `get` answers with the head of `getlist`, and None exactly when the field was not submitted. */
  lemma {:induction false} GetIsFirstOfList(f: Form, key: string)
    ensures Get(f, key).None? <==> GetList(f, key) == []
    ensures Get(f, key).Some? ==> Get(f, key).value == GetList(f, key)[0]
    ensures Get(f, key).Some? <==> exists i :: 0 <= i < |f| && f[i].0 == key
  {
    if f != [] {
      GetIsFirstOfList(f[1..], key);
      if f[0].0 != key {
        forall i | 0 < i < |f| && f[i].0 == key
          ensures f[1..][i - 1].0 == key
        {
        }
      }
    }
  }

  /** `True if request.form.get(key) != None else False`: the seeking flags. */
  function SeekingFlag(f: Form, key: string): bool
  {
    Get(f, key) != None
  }

  /** The seeking flags are decided by the presence of the field alone:
      true whenever the key was submitted, whatever its value ("n" or "" included). */
  lemma FlagIsPresence(f: Form, key: string)
    ensures SeekingFlag(f, key) <==> exists i :: 0 <= i < |f| && f[i].0 == key
    ensures forall value :: SeekingFlag([(key, value)] + f, key)
  {
    GetIsFirstOfList(f, key);
  }

  /** What `extract_data` returns: a list (genres), a boolean (the flags), or the raw string. */
  datatype FieldValue = Values(list: seq<string>) | Flag(on: bool) | Raw(text: string)

  /** `request.form[key]` raises a KeyError (answered with 400 Bad Request) when the key is absent. */
  datatype Extraction = Extracted(value: FieldValue) | MissingKey

  /** `extract_data(field_name)` as written. Python reads `a or b and c` as
      `a or (b and c)`, and `form[key]` is only evaluated when its operand is reached. */
  function ExtractData(f: Form, field: string): Extraction
  {
    if field == "genres" then Extracted(Values(GetList(f, field)))
    // first elif: field == "seeking_talent" or (field == "seeking_venue" and form[field] == "y")
    else if field == "seeking_talent" then Extracted(Flag(true))
    else if field == "seeking_venue" then
      match Get(f, field)
      case None => MissingKey
      // true when the value is "y"; otherwise the second elif holds and answers false
      case Some(v) => Extracted(Flag(v == "y"))
    else
      match Get(f, field)
      case None => MissingKey
      case Some(v) => Extracted(Raw(v))
  }

  /** `extract_data` with the grouping its two elifs evidently intend:
      `(field == "seeking_talent" or field == "seeking_venue") and form[field] == "y"`. */
  function ExtractDataIntended(f: Form, field: string): Extraction
  {
    if field == "genres" then Extracted(Values(GetList(f, field)))
    else if field == "seeking_talent" || field == "seeking_venue" then
      match Get(f, field)
      case None => MissingKey
      case Some(v) => Extracted(Flag(v == "y"))
    else
      match Get(f, field)
      case None => MissingKey
      case Some(v) => Extracted(Raw(v))
  }

  /** What `extract_data` answers, field by field, as written. */
  lemma ExtractDataCases(f: Form, field: string)
    ensures field == "genres" ==> ExtractData(f, field) == Extracted(Values(GetList(f, field)))
    ensures field == "seeking_talent" ==> ExtractData(f, field) == Extracted(Flag(true))
    ensures field == "seeking_venue" ==>
      (ExtractData(f, field) == MissingKey <==> GetList(f, field) == [])
    ensures field == "seeking_venue" && GetList(f, field) != [] ==>
      ExtractData(f, field) == Extracted(Flag(GetList(f, field)[0] == "y"))
    ensures field !in {"genres", "seeking_talent", "seeking_venue"} ==>
      ExtractData(f, field) == (if GetList(f, field) == [] then MissingKey else Extracted(Raw(GetList(f, field)[0])))
  {
    GetIsFirstOfList(f, field);
  }

  /** The precedence slip: a "seeking_talent" of "n" still reads as true, where the
      intended reading gives false; and an absent one reads as true instead of failing. */
  lemma ExtractDataPrecedenceSlip()
    ensures ExtractData([("seeking_talent", "n")], "seeking_talent") == Extracted(Flag(true))
    ensures ExtractDataIntended([("seeking_talent", "n")], "seeking_talent") == Extracted(Flag(false))
    ensures ExtractData([], "seeking_talent") == Extracted(Flag(true))
    ensures ExtractDataIntended([], "seeking_talent") == MissingKey
  {
  }

  /** Read as intended, both seeking flags decode the same way: true exactly for
      the value "y", and a missing field is a missing key. */
  lemma ExtractDataIntendedFlags(f: Form, field: string)
    requires field == "seeking_talent" || field == "seeking_venue"
    ensures ExtractDataIntended(f, field) ==
      if GetList(f, field) == [] then MissingKey else Extracted(Flag(GetList(f, field)[0] == "y"))
  {
    GetIsFirstOfList(f, field);
  }

  /** The slip only affects "seeking_talent": every other field reads the same either way. */
  lemma ExtractDataAgreesElsewhere(f: Form, field: string)
    requires field != "seeking_talent"
    ensures ExtractData(f, field) == ExtractDataIntended(f, field)
  {
  }

  // ---------------------------------------------------------------------------
  // Genre codec: ", ".join(list) on write, s.split(", ") on read.

  /** `", ".join(items)`. */
  function Join(items: seq<string>): string
  {
    if items == [] then ""
    else if |items| == 1 then items[0]
    else items[0] + ", " + Join(items[1..])
  }

  /** `s` holds the two-character delimiter ", " somewhere. */
  predicate HasDelimiter(s: string)
  {
    exists i :: 0 <= i < |s| - 1 && s[i] == ',' && s[i + 1] == ' '
  }

  /** The index of the leftmost ", " in `s`, as `str.find(", ")` gives it. */
  function FindDelimiter(s: string): (r: Option<nat>)
    ensures r.None? <==> !HasDelimiter(s)
    ensures r.Some? ==> r.value + 1 < |s| && s[r.value] == ',' && s[r.value + 1] == ' '
    ensures r.Some? ==> !HasDelimiter(s[..r.value + 1])
  {
    if |s| < 2 then None
    else if s[0] == ',' && s[1] == ' ' then Some(0)
    else match FindDelimiter(s[1..])
      case None => None
      case Some(i) => Some(i + 1)
  }

  /** `s.split(", ")`: cut at each leftmost delimiter in turn; never empty. */
  function Split(s: string): (r: seq<string>)
    ensures r != []
    decreases |s|
  {
    match FindDelimiter(s)
    case None => [s]
    case Some(i) => [s[..i]] + Split(s[i + 2..])
  }

  /** After a delimiter-free item, the first delimiter is the one `Join` put there. */
  lemma FindDelimiterAfterItem(item: string, rest: string)
    requires !HasDelimiter(item)
    ensures FindDelimiter(item + ", " + rest) == Some(|item|)
  {
    var s := item + ", " + rest;
    assert s[|item|] == ',' && s[|item| + 1] == ' ';
    var r := FindDelimiter(s);
    assert r.Some?;
    var j := r.value;
    if j != |item| {
      assert false;
    }
  }

  /** Reading back what was written gives the list back, for any non-empty list
      whose genres do not themselves contain the delimiter. */
  lemma {:induction false} GenresRoundTrip(items: seq<string>)
    requires items != []
    requires forall k :: 0 <= k < |items| ==> !HasDelimiter(items[k])
    ensures Split(Join(items)) == items
  {
    if |items| == 1 {
      assert Join(items) == items[0];
    } else {
      FindDelimiterAfterItem(items[0], Join(items[1..]));
      var s := items[0] + ", " + Join(items[1..]);
      assert Join(items) == s;
      assert s[..|items[0]|] == items[0];
      assert s[|items[0]| + 2..] == Join(items[1..]);
      GenresRoundTrip(items[1..]);
      assert items == [items[0]] + items[1..];
    }
  }

  /** The empty list is written as "" and reads back as [""], not as []. */
  lemma EmptyGenresReadBack()
    ensures Join([]) == ""
    ensures Split(Join([])) == [""]
  {
    assert !HasDelimiter("");
  }

  /** A genre that contains the delimiter comes back as two genres. */
  lemma DelimiterInGenreCorrupts()
    ensures Join(["Rock, Pop"]) == "Rock, Pop"
    ensures Split(Join(["Rock, Pop"])) == ["Rock", "Pop"]
  {
    var s := "Rock, Pop";
    assert FindDelimiter(s[3..]) == Some(1);
    assert FindDelimiter(s) == Some(4);
    assert s[..4] == "Rock" && s[6..] == "Pop";
    assert !HasDelimiter("Pop");
  }

  /** An artist submitted with the genres Jazz and Blues: ["Jazz", "Blues"] is
      stored as "Jazz, Blues" and read back unchanged. */
  lemma JazzBluesRoundTrip()
    ensures Join(["Jazz", "Blues"]) == "Jazz, Blues"
    ensures Split("Jazz, Blues") == ["Jazz", "Blues"]
  {
    var items := ["Jazz", "Blues"];
    assert Join(items) == "Jazz" + ", " + Join(["Blues"]);
    assert !HasDelimiter("Jazz") && !HasDelimiter("Blues");
    GenresRoundTrip(items);
  }
}
