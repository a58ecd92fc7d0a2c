/** `DiscordHeaders.TryExtractHeaders`: read the two signature headers of an
    interaction request. */
module DiscordHeaders {
  import opened Wrappers

  const TimestampHeaderName := "X-Signature-Timestamp"
  const SignatureHeaderName := "X-Signature-Ed25519"

  /** `StringValues`: the values a request carries for one header name. */
  type StringValues = seq<string>

  /** The values separated by commas. */
  function Join(values: seq<string>): string
  {
    if values == [] then ""
    else if |values| == 1 then values[0]
    else Join(values[..|values| - 1]) + "," + values[|values| - 1]
  }

  /** The non-empty values, in order. */
  function NonEmpty(values: seq<string>): (r: seq<string>)
    ensures forall i | 0 <= i < |r| :: r[i] != ""
  {
    if values == [] then []
    else
      var last := values[|values| - 1];
      NonEmpty(values[..|values| - 1]) + (if last == "" then [] else [last])
  }

  /** The single pass with which `StringValues` joins several values: an
      empty value is skipped, and a comma precedes each value written after
      the first. */
  function JoinSkippingEmpty(values: seq<string>): string
  {
    if values == [] then ""
    else
      var written := JoinSkippingEmpty(values[..|values| - 1]);
      var last := values[|values| - 1];
      if last == "" then written
      else if written == "" then last
      else written + "," + last
  }

  /** Joining non-empty values gives the empty string only for no values. */
  lemma {:induction false} JoinOfNonEmptyValues(values: seq<string>)
    requires forall i | 0 <= i < |values| :: values[i] != ""
    ensures Join(values) == "" <==> values == []
  {
    if |values| > 1 {
      assert values[|values| - 1] != "";
    } else if |values| == 1 {
      assert values[0] != "";
    }
  }

  /** The single pass joins exactly the non-empty values with commas. */
  lemma {:induction false} JoinSkippingEmptyJoinsNonEmpty(values: seq<string>)
    ensures JoinSkippingEmpty(values) == Join(NonEmpty(values))
  {
    if values != [] {
      var prefix := values[..|values| - 1];
      var last := values[|values| - 1];
      var kept := NonEmpty(prefix);
      JoinSkippingEmptyJoinsNonEmpty(prefix);
      JoinOfNonEmptyValues(kept);
      if last != "" {
        assert NonEmpty(values) == kept + [last];
        assert (kept + [last])[..|kept|] == kept;
      } else {
        assert kept + [] == kept;
        assert NonEmpty(values) == kept;
        assert JoinSkippingEmpty(values) == JoinSkippingEmpty(prefix);
      }
    }
  }

  /** Without empty values, nothing is skipped. */
  lemma {:induction false} NonEmptyKeepsNonEmptyValues(values: seq<string>)
    requires forall i | 0 <= i < |values| :: values[i] != ""
    ensures NonEmpty(values) == values
  {
    if values != [] {
      var prefix := values[..|values| - 1];
      assert forall i | 0 <= i < |prefix| :: prefix[i] == values[i];
      NonEmptyKeepsNonEmptyValues(prefix);
      assert prefix + [values[|values| - 1]] == values;
    }
  }

  /** The implicit conversion of `StringValues` to `string?`: null for no
      value, the value itself for one, and for several the non-empty values
      joined with commas. */
  function AsNullableString(values: StringValues): (s: Option<string>)
    ensures s.None? <==> values == []
    ensures |values| == 1 ==> s == Some(values[0])
    ensures |values| > 1 ==> s == Some(Join(NonEmpty(values)))
  {
    if |values| == 0 then None
    else if |values| == 1 then Some(values[0])
    else
      JoinSkippingEmptyJoinsNonEmpty(values);
      Some(JoinSkippingEmpty(values))
  }

  /** Several values none of which is empty convert to their plain comma join. */
  lemma SeveralNonEmptyValuesJoined(values: StringValues)
    requires |values| > 1
    requires forall i | 0 <= i < |values| :: values[i] != ""
    ensures AsNullableString(values) == Some(Join(values))
  {
    NonEmptyKeepsNonEmptyValues(values);
  }

  /** An empty value among several leaves no trace: `["", a]` converts to `a`. */
  lemma EmptyValueSkipped(a: string)
    requires a != ""
    ensures AsNullableString(["", a]) == Some(a)
  {
    assert NonEmpty(["", a][..1]) == [] by {
      assert ["", a][..1] == [""];
      assert [""][..0] == [];
    }
  }

  /** `headers.TryGetValue(name, out var v)` followed by the conversion; a
      missing header leaves the output null. */
  function HeaderValue(headers: map<string, StringValues>, name: string): Option<string>
  {
    if name in headers then AsNullableString(headers[name]) else None
  }

  /** The return value and the two out-parameters of `TryExtractHeaders`. */
  datatype ExtractedHeaders = ExtractedHeaders(found: bool, timestamp: Option<string>, key: Option<string>)

  /** `TryExtractHeaders`: look both headers up; succeed only when both are non-null. */
  function TryExtractHeaders(headers: map<string, StringValues>): (r: ExtractedHeaders)
    ensures r.found <==> r.timestamp.Some? && r.key.Some?
    ensures r.found <==>
      && TimestampHeaderName in headers && headers[TimestampHeaderName] != []
      && SignatureHeaderName in headers && headers[SignatureHeaderName] != []
    ensures r.timestamp.Some? <==> TimestampHeaderName in headers && headers[TimestampHeaderName] != []
    ensures r.key.Some? <==> SignatureHeaderName in headers && headers[SignatureHeaderName] != []
    ensures TimestampHeaderName in headers && |headers[TimestampHeaderName]| == 1 ==>
      r.timestamp == Some(headers[TimestampHeaderName][0])
    ensures SignatureHeaderName in headers && |headers[SignatureHeaderName]| == 1 ==>
      r.key == Some(headers[SignatureHeaderName][0])
    ensures TimestampHeaderName in headers ==> r.timestamp == AsNullableString(headers[TimestampHeaderName])
    ensures SignatureHeaderName in headers ==> r.key == AsNullableString(headers[SignatureHeaderName])
  {
    var timestamp := HeaderValue(headers, TimestampHeaderName);
    var key := HeaderValue(headers, SignatureHeaderName);
    ExtractedHeaders(timestamp != None && key != None, timestamp, key)
  }

  /** Each output depends only on its own header: two requests that agree on
      the timestamp header extract the same timestamp, whatever else they
      carry, and likewise for the signature. */
  lemma LookupsIndependent(h1: map<string, StringValues>, h2: map<string, StringValues>)
    ensures HeaderValue(h1, TimestampHeaderName) == HeaderValue(h2, TimestampHeaderName) ==>
      TryExtractHeaders(h1).timestamp == TryExtractHeaders(h2).timestamp
    ensures HeaderValue(h1, SignatureHeaderName) == HeaderValue(h2, SignatureHeaderName) ==>
      TryExtractHeaders(h1).key == TryExtractHeaders(h2).key
  {
  }

  /** A request with one value for each header yields both values. */
  lemma ExtractsBothHeaders(timestamp: string, signature: string)
    ensures TryExtractHeaders(map[TimestampHeaderName := [timestamp], SignatureHeaderName := [signature]])
      == ExtractedHeaders(true, Some(timestamp), Some(signature))
  {
    var headers := map[TimestampHeaderName := [timestamp], SignatureHeaderName := [signature]];
    assert TimestampHeaderName != SignatureHeaderName by {
      assert TimestampHeaderName[12] != SignatureHeaderName[12];
    }
    assert headers[TimestampHeaderName] == [timestamp];
  }

  /** A missing signature header fails the extraction but still yields the timestamp. */
  lemma MissingSignatureStillYieldsTimestamp(headers: map<string, StringValues>, timestamp: string)
    requires SignatureHeaderName !in headers
    ensures var r := TryExtractHeaders(headers[TimestampHeaderName := [timestamp]]);
      !r.found && r.timestamp == Some(timestamp) && r.key == None
  {
    var h := headers[TimestampHeaderName := [timestamp]];
    assert TimestampHeaderName != SignatureHeaderName by {
      assert TimestampHeaderName[12] != SignatureHeaderName[12];
    }
    assert SignatureHeaderName !in h;
  }
}
