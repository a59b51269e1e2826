/**
 The keys of a multi-key channel are stored as one text: one key per line, or a
 JSON array (model/channel.go). Parsing of JSON is a parameter.
 */
module KeyText {
  import opened Text

  datatype Option<T> = None | Some(value: T)

  /** The elements of a JSON array, or `None` for a text that is not one. */
  type Parser = string -> Option<seq<string>>

  predicate LooksLikeArray(text: string) {
    "[" <= TrimSpace(text)
  }

  /** The text is read as a JSON array. */
  predicate IsArray(text: string, parse: Parser) {
    LooksLikeArray(text) && parse(TrimSpace(text)).Some?
  }

  function Lines(text: string): seq<string> {
    Split(TrimBy(text, IsNewline), '\n')
  }

  /** `Channel.GetKeys` on a freshly loaded row. */
  function GetKeys(text: string, parse: Parser): seq<string> {
    if text == "" then []
    else if IsArray(text, parse) then parse(TrimSpace(text)).value
    else Lines(text)
  }

  /** The key list that `Channel.Update` counts: an empty array falls back to lines. */
  function CountedKeys(text: string, parse: Parser): seq<string> {
    if text == "" then []
    else if IsArray(text, parse) && |parse(TrimSpace(text)).value| > 0 then parse(TrimSpace(text)).value
    else Lines(text)
  }

  /** The count and the list differ exactly for a text that is an empty JSON array. */
  lemma CountedKeysIff(text: string, parse: Parser)
    ensures CountedKeys(text, parse) == GetKeys(text, parse)
       <==> !(text != "" && IsArray(text, parse) && parse(TrimSpace(text)).value == [])
  {
  }

  /** Written out one per line, the list reads back as itself, also when it is counted. */
  predicate RoundTrips(keys: seq<string>, parse: Parser) {
    var text := Join(keys, '\n');
    GetKeys(text, parse) == keys && CountedKeys(text, parse) == keys
  }

  /** No key spans lines, and neither the first nor the last key is blank. */
  ghost predicate LineSafe(keys: seq<string>) {
    SepFree(keys, '\n') && (keys != [] ==> keys[0] != "" && keys[|keys| - 1] != "")
  }

  lemma LinesRoundTripIff(keys: seq<string>)
    requires keys != []
    ensures Join(keys, '\n') != "" && Lines(Join(keys, '\n')) == keys <==> LineSafe(keys)
  {
    var text := Join(keys, '\n');
    JoinEnds(keys, '\n');
    TrimByFixed(text, IsNewline);
    if LineSafe(keys) {
      SplitJoin(keys, '\n');
    } else if SepFree(keys, '\n') {
      // A blank end is trimmed away together with its line break.
      if |keys| > 1 {
        assert !Trimmed(text, IsNewline);
        if Lines(text) == keys {
          JoinSplit(TrimBy(text, IsNewline), '\n');
        }
      }
    } else {
      SplitPartsSepFree(TrimBy(text, IsNewline), '\n');
    }
  }

  /** A list that is not mistaken for a JSON array survives being stored exactly when it is safe line by line. */
  lemma RoundTripsIff(keys: seq<string>, parse: Parser)
    requires !IsArray(Join(keys, '\n'), parse)
    ensures RoundTrips(keys, parse) <==> LineSafe(keys)
  {
    if keys != [] {
      LinesRoundTripIff(keys);
      hide Lines;
      if Join(keys, '\n') == "" {
        assert GetKeys("", parse) == [];
      }
    }
  }
}
