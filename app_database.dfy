/** Room's type converter for a face's embeddings (`Converters`): each byte
    array is Base64-encoded and the texts are joined with ';'; reading splits
    on ';' and decodes every segment. */
module AppDatabase {
  import opened Options
  import opened Base64

  const Separator := ';'

  /** `joinToString(";")`: the parts in order with one separator between
      neighbours, so the text starts with the first part, followed by a
      separator when there are more. */
  function Join(parts: seq<string>): (s: string)
    ensures |parts| >= 1 ==> parts[0] <= s
    ensures |parts| >= 2 ==> |s| > |parts[0]| && s[|parts[0]|] == Separator
    decreases |parts|
  {
    if |parts| == 0 then ""
    else if |parts| == 1 then parts[0]
    else parts[0] + [Separator] + Join(parts[1..])
  }

  /** `split(";")`: the segments between separators, in order; a text with `n`
      separators has `n + 1` segments, empty ones included. */
  function Split(s: string): (parts: seq<string>)
    ensures |parts| >= 1
    ensures forall k :: 0 <= k < |parts| ==> Separator !in parts[k]
    decreases |s|
  {
    if s == [] then [""]
    else
      var rest := Split(s[1..]);
      if s[0] == Separator then [""] + rest
      else [[s[0]] + rest[0]] + rest[1..]
  }

  function CountSeparators(s: string): nat
    decreases |s|
  {
    if s == [] then 0 else (if s[0] == Separator then 1 else 0) + CountSeparators(s[1..])
  }

  lemma {:induction false} SplitCount(s: string)
    ensures |Split(s)| == CountSeparators(s) + 1
    decreases |s|
  {
    if s != [] {
      SplitCount(s[1..]);
    }
  }

  /** Splitting loses nothing: joining the segments gives back the text. */
  lemma {:induction false} JoinSplit(s: string)
    ensures Join(Split(s)) == s
    decreases |s|
  {
    if s != [] {
      var rest := Split(s[1..]);
      JoinSplit(s[1..]);
      if s[0] == Separator {
        assert ([""] + rest)[1..] == rest;
      } else {
        var parts := [[s[0]] + rest[0]] + rest[1..];
        assert parts[1..] == rest[1..];
        if |rest| > 1 {
          assert rest[1..][1..] == rest[2..];
          assert Join(rest) == rest[0] + [Separator] + Join(rest[1..]);
        }
      }
    }
  }

  /** A segment free of separators followed by a separator and more text. */
  lemma {:induction false} SplitAfterSegment(p: string, t: string)
    requires Separator !in p
    ensures Split(p + [Separator] + t) == [p] + Split(t)
    decreases |p|
  {
    if p == [] {
      assert p + [Separator] + t == [Separator] + t;
      assert ([Separator] + t)[1..] == t;
    } else {
      SplitAfterSegment(p[1..], t);
      assert (p + [Separator] + t)[1..] == p[1..] + [Separator] + t;
      assert [p[0]] + p[1..] == p;
    }
  }

  lemma {:induction false} SplitSegment(p: string)
    requires Separator !in p
    ensures Split(p) == [p]
    decreases |p|
  {
    if p != [] {
      SplitSegment(p[1..]);
      assert [p[0]] + p[1..] == p;
    }
  }

  /** Joining is undone by splitting, as long as there is at least one part
      and no part contains the separator. */
  lemma {:induction false} SplitJoin(parts: seq<string>)
    requires |parts| >= 1
    requires forall k :: 0 <= k < |parts| ==> Separator !in parts[k]
    ensures Split(Join(parts)) == parts
    decreases |parts|
  {
    if |parts| == 1 {
      SplitSegment(parts[0]);
    } else {
      SplitJoin(parts[1..]);
      SplitAfterSegment(parts[0], Join(parts[1..]));
    }
  }

  function EncodeAll(list: seq<seq<Byte>>): (texts: seq<string>)
    ensures |texts| == |list|
    ensures forall k :: 0 <= k < |list| ==> texts[k] == Encode(list[k])
  {
    seq(|list|, k requires 0 <= k < |list| => Encode(list[k]))
  }

  /** Every segment decoded, or `None` (the source throws) if one is not
      valid Base64. */
  function DecodeAll(texts: seq<string>): (r: Option<seq<seq<Byte>>>)
    ensures r.Some? ==> |r.value| == |texts|
    ensures r.Some? ==> forall k :: 0 <= k < |texts| ==> Decode(texts[k]) == Some(r.value[k])
    ensures r.None? ==> exists k :: 0 <= k < |texts| && Decode(texts[k]).None?
    decreases |texts|
  {
    if texts == [] then Some([])
    else
      match Decode(texts[0])
      case None => None
      case Some(head) =>
        match DecodeAll(texts[1..])
        case None =>
          assert exists k :: 0 <= k < |texts[1..]| && Decode(texts[1..][k]).None?;
          var k :| 0 <= k < |texts[1..]| && Decode(texts[1..][k]).None?;
          assert Decode(texts[k + 1]).None?;
          None
        case Some(tail) =>
          assert forall k :: 1 <= k < |texts| ==> texts[k] == texts[1..][k - 1];
          Some([head] + tail)
  }

  /** `Converters.fromList`. */
  function FromList(list: seq<seq<Byte>>): (data: string)
    ensures list == [] ==> data == ""
  {
    Join(EncodeAll(list))
  }

  /** `Converters.toList`: the empty text stands for the empty list; any
      other text gives one array per ';'-separated segment, in order, or
      `None` (the source throws) when some segment is not valid Base64. */
  function ToList(data: string): (r: Option<seq<seq<Byte>>>)
    ensures data == "" ==> r == Some([])
    ensures data != "" && r.Some? ==> |r.value| == |Split(data)| == CountSeparators(data) + 1
    ensures data != "" && r.Some? ==>
      forall k :: 0 <= k < |Split(data)| ==> Decode(Split(data)[k]) == Some(r.value[k])
    ensures data != "" ==>
      (r.None? <==> exists k :: 0 <= k < |Split(data)| && Decode(Split(data)[k]).None?)
  {
    if data == "" then Some([])
    else
      SplitCount(data);
      DecodeAll(Split(data))
  }

  /** A non-empty list is stored with one separator between consecutive
      elements, since Base64 never produces ';'. */
  lemma SeparatorCount(list: seq<seq<Byte>>)
    requires |list| > 0
    ensures CountSeparators(FromList(list)) == |list| - 1
  {
    SplitJoin(EncodeAll(list));
    SplitCount(FromList(list));
  }

  /** The one list that does not survive storage: a single empty array is
      stored as "" and read back as the empty list. */
  lemma SingleEmptyArrayIsLost()
    ensures FromList([[]]) == ""
    ensures ToList(FromList([[]])) == Some([])
  {
    assert EncodeAll([[]]) == [""];
  }

  /** Storing and reading back returns the same list, for every list except
      the one holding a single empty array. */
  lemma RoundTripIff(list: seq<seq<Byte>>)
    ensures ToList(FromList(list)) == Some(list) <==> list != [[]]
  {
    if list == [[]] {
      SingleEmptyArrayIsLost();
    } else if list != [] {
      var texts := EncodeAll(list);
      SplitJoin(texts);
      if |list| == 1 {
        assert FromList(list) == Encode(list[0]);
        assert list[0] != [];
      } else {
        assert FromList(list) == texts[0] + [Separator] + Join(texts[1..]);
      }
      assert FromList(list) != "";
      var r := DecodeAll(texts);
      forall k | 0 <= k < |list|
        ensures Decode(texts[k]) == Some(list[k])
      {
        DecodeEncode(list[k]);
      }
      assert r.Some?;
      assert r.value == list;
    }
  }
}
