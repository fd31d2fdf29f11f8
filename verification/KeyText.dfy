/**
 How the keys of a channel survive being saved.  The program stores them as one text, one key per line or a JSON array,
 and reads the list and its size back from the text after every change.
 */
module KeyText {
  import opened Prelude
  import opened Text
  import opened ModelNames
  import opened MultiKey

  const NEWLINE := '\n'

  /** Decoding a JSON array into the texts of its elements; `None` is a syntax error. */
  type ArrayParser = string -> Option<seq<string>>

  /** An array has its elements' texts and a separator between any two inside its brackets. */
  ghost predicate Bracketed(parse: ArrayParser) {
    forall t :: parse(t).Some? && parse(t).value != [] ==> |Join(parse(t).value, NEWLINE)| < |t|
  }

  function TrimStart(s: string): string {
    if s != [] && s[0] == NEWLINE then TrimStart(s[1..]) else s
  }

  function TrimEnd(s: string): string {
    if s != [] && s[|s| - 1] == NEWLINE then TrimEnd(s[..|s| - 1]) else s
  }

  function Lines(text: string): (r: seq<string>)
    ensures r != []
  {
    Split(TrimEnd(TrimStart(text)), NEWLINE)
  }

  predicate IsArray(parse: ArrayParser, text: string) {
    "[" <= TrimSpace(text) && parse(TrimSpace(text)).Some?
  }

  /** `GetKeys`. */
  function GetKeys(parse: ArrayParser, text: string): seq<string> {
    if text == "" then []
    else if IsArray(parse, text) then parse(TrimSpace(text)).value
    else Lines(text)
  }

  /** The size `Update` records; an empty array is read as lines there. */
  function SizeOf(parse: ArrayParser, text: string): nat {
    if text == "" then 0
    else if IsArray(parse, text) && parse(TrimSpace(text)).value != [] then |parse(TrimSpace(text)).value|
    else |Lines(text)|
  }

  lemma {:induction false} TrimStartMeans(s: string) returns (i: nat)
    ensures i <= |s| && TrimStart(s) == s[i..] && (forall k :: 0 <= k < i ==> s[k] == '\n') && (i < |s| ==> s[i] != '\n')
  {
    if s != [] && s[0] == NEWLINE {
      var j := TrimStartMeans(s[1..]);
      i := j + 1;
    } else {
      i := 0;
    }
  }

  lemma {:induction false} TrimEndMeans(s: string) returns (j: nat)
    ensures j <= |s| && TrimEnd(s) == s[..j] && (forall k :: j <= k < |s| ==> s[k] == '\n') && (j > 0 ==> s[j - 1] != '\n')
  {
    if s != [] && s[|s| - 1] == NEWLINE {
      j := TrimEndMeans(s[..|s| - 1]);
    } else {
      j := |s|;
    }
  }

  /**
   How a key text is read: an array if its first visible character is a bracket and it decodes, otherwise line by line
   between leading and trailing newlines.  The recorded size is the number of keys, except for an empty array.
   */
  lemma GetKeysMeans(parse: ArrayParser, text: string) returns (i: nat, j: nat)
    ensures i <= j <= |text| && (forall k :: 0 <= k < |text| && !(i <= k < j) ==> text[k] == '\n')
    ensures i < j ==> text[i] != '\n' && text[j - 1] != '\n'
    ensures var trimmed := TrimSpace(text);
            var isArray := trimmed != "" && trimmed[0] == '[' && parse(trimmed) != None;
            && GetKeys(parse, text) == (if text == "" then [] else if isArray then parse(trimmed).value else Split(text[i..j], '\n'))
            && SizeOf(parse, text)
               == if isArray && parse(trimmed).value == [] then |Split(text[i..j], '\n')| else |GetKeys(parse, text)|
  {
    hide Lines, TrimSpace, Split;
    i, j := LinesMean(text);
    StartsWithBracket(TrimSpace(text));
    TrimSpaceIsNoLonger(text);
  }

  lemma LinesMean(text: string) returns (i: nat, j: nat)
    ensures i <= j <= |text| && (forall k :: 0 <= k < |text| && !(i <= k < j) ==> text[k] == '\n')
    ensures i < j ==> text[i] != '\n' && text[j - 1] != '\n'
    ensures Lines(text) == Split(text[i..j], '\n')
  {
    hide TrimStart, TrimEnd, Split;
    i := TrimStartMeans(text);
    var n := TrimEndMeans(text[i..]);
    j := i + n;
    assert text[i..][..n] == text[i..j];
    assert forall k :: j <= k < |text| ==> text[k] == text[i..][k - i];
  }

  lemma StartsWithBracket(s: string)
    ensures "[" <= s <==> s != "" && s[0] == '['
  {
  }

  function JoinKeys(keys: seq<string>): string {
    if keys == [] then "" else Join(keys, NEWLINE)
  }

  /** What the database holds afterwards: an update leaves out an empty text. */
  function Saved(before: string, keys: seq<string>): string {
    if JoinKeys(keys) == "" then before else JoinKeys(keys)
  }

  /** The records read back after saving; only the statuses are cut to the recorded size. */
  function Reloaded(parse: ArrayParser, text: string, statuses: map<int, int>, times: map<int, int>, reasons: map<int, string>): seq<Record> {
    Records(GetKeys(parse, text), CutTo(statuses, SizeOf(parse, text)), times, reasons)
  }

  // ----- When the list reads back

  /** One key per line, and no blank line at either end. */
  ghost predicate OnePerLine(keys: seq<string>) {
    && keys != [] && keys[0] != "" && keys[|keys| - 1] != ""
    && forall i :: 0 <= i < |keys| ==> NEWLINE !in keys[i]
  }

  lemma {:induction false} TrimStartFacts(s: string)
    ensures |TrimStart(s)| <= |s| && (TrimStart(s) == s <==> s == [] || s[0] != NEWLINE)
    ensures |TrimStart(s)| == |s| ==> TrimStart(s) == s
    ensures s != [] && s[|s| - 1] != NEWLINE ==> TrimStart(s) != [] && TrimStart(s)[|TrimStart(s)| - 1] == s[|s| - 1]
  {
    if s != [] && s[0] == NEWLINE {
      TrimStartFacts(s[1..]);
    }
  }

  lemma {:induction false} TrimEndFacts(s: string)
    ensures |TrimEnd(s)| <= |s| && (TrimEnd(s) == s <==> s == [] || s[|s| - 1] != NEWLINE)
    ensures |TrimEnd(s)| == |s| ==> TrimEnd(s) == s
  {
    if s != [] && s[|s| - 1] == NEWLINE {
      TrimEndFacts(s[..|s| - 1]);
    }
  }

  lemma UntrimmedIff(text: string)
    ensures TrimEnd(TrimStart(text)) == text <==> text == [] || (text[0] != NEWLINE && text[|text| - 1] != NEWLINE)
  {
    hide TrimStart, TrimEnd;
    TrimStartFacts(text);
    TrimEndFacts(text);
    TrimEndFacts(TrimStart(text));
  }

  /** The ends of joined text are the ends of the first and the last key. */
  lemma {:induction false} JoinedEnds(keys: seq<string>)
    requires keys != []
    ensures var t := Join(keys, NEWLINE);
            && (|keys| > 1 ==> t != [])
            && (t != [] && keys[0] == "" ==> t[0] == NEWLINE)
            && (keys[0] != "" ==> t != [] && t[0] == keys[0][0])
            && (t != [] && keys[|keys| - 1] == "" ==> t[|t| - 1] == NEWLINE)
            && (keys[|keys| - 1] != "" ==> t != [] && t[|t| - 1] == keys[|keys| - 1][|keys[|keys| - 1]| - 1])
  {
    if |keys| > 1 {
      JoinedEnds(keys[1..]);
      var rest := Join(keys[1..], NEWLINE);
      assert Join(keys, NEWLINE) == keys[0] + [NEWLINE] + rest;
      assert keys[1..][|keys| - 2] == keys[|keys| - 1];
    }
  }

  /** Joined keys split into themselves exactly if there is one key per line. */
  lemma LinesOfJoinedIff(keys: seq<string>)
    requires keys != [] && Join(keys, NEWLINE) != ""
    ensures Lines(Join(keys, NEWLINE)) == keys <==> OnePerLine(keys)
  {
    hide TrimStart, TrimEnd, Join, Split;
    var text := Join(keys, NEWLINE);
    var trimmed := TrimEnd(TrimStart(text));
    JoinedEnds(keys);
    UntrimmedIff(text);
    if Lines(text) == keys {
      JoinSplit(trimmed, NEWLINE);
    }
    if OnePerLine(keys) {
      SplitJoin(keys, NEWLINE);
    }
  }

  lemma TrimSpaceIsNoLonger(s: string)
    ensures |TrimSpace(s)| <= |s|
  {
    var i, j := TrimSpaceFacts(s);
  }

  /** Joined keys never read back through the array form: the elements are shorter than the text. */
  lemma ArrayIsNotItsText(parse: ArrayParser, keys: seq<string>)
    requires Bracketed(parse) && keys != [] && IsArray(parse, Join(keys, NEWLINE))
    ensures parse(TrimSpace(Join(keys, NEWLINE))).value != keys
  {
    hide TrimSpace, Join;
    TrimSpaceIsNoLonger(Join(keys, NEWLINE));
  }

  /** Saving keys that are fewer than before, as every deletion does, reads back the same list exactly in this case. */
  lemma KeysReadBackIff(parse: ArrayParser, before: string, keys: seq<string>)
    requires Bracketed(parse) && |keys| < |GetKeys(parse, before)|
    ensures GetKeys(parse, Saved(before, keys)) == keys <==> OnePerLine(keys) && !IsArray(parse, JoinKeys(keys))
  {
    hide Lines, IsArray, TrimSpace, Join, Bracketed;
    if keys != [] {
      JoinedEnds(keys);
      if JoinKeys(keys) != "" {
        LinesOfJoinedIff(keys);
        if IsArray(parse, JoinKeys(keys)) {
          ArrayIsNotItsText(parse, keys);
        }
      }
    }
  }

  /**
   A deletion survives being saved, with every key's status, time and reason, if and only if the remaining keys stand
   one per line and the joined text does not happen to be an array.
   */
  lemma DeletionIsSavedIff(parse: ArrayParser, before: string, keys: seq<string>,
                           statuses: map<int, int>, times: map<int, int>, reasons: map<int, string>)
    requires Bracketed(parse) && |keys| < |GetKeys(parse, before)| && Below(statuses, |keys|)
    ensures Reloaded(parse, Saved(before, keys), statuses, times, reasons) == Records(keys, statuses, times, reasons)
       <==> OnePerLine(keys) && !IsArray(parse, JoinKeys(keys))
  {
    hide GetKeys, Saved, IsArray, OnePerLine, JoinKeys;
    var text := Saved(before, keys);
    KeysReadBackIff(parse, before, keys);
    if GetKeys(parse, text) == keys {
      SizeOfReadBack(parse, before, keys);
      assert CutTo(statuses, SizeOf(parse, text)) == statuses;
    } else {
      RecordsTellKeys(GetKeys(parse, text), keys, CutTo(statuses, SizeOf(parse, text)), statuses, times, reasons);
    }
  }

  lemma SizeOfReadBack(parse: ArrayParser, before: string, keys: seq<string>)
    requires GetKeys(parse, Saved(before, keys)) == keys && |keys| < |GetKeys(parse, before)|
    ensures SizeOf(parse, Saved(before, keys)) >= |keys|
  {
    hide Lines, IsArray, TrimSpace, JoinKeys;
  }

  lemma RecordsTellKeys(xs: seq<string>, ys: seq<string>, s: map<int, int>, s': map<int, int>, t: map<int, int>, r: map<int, string>)
    requires xs != ys
    ensures Records(xs, s, t, r) != Records(ys, s', t, r)
  {
    if |xs| == |ys| {
      var i :| 0 <= i < |xs| && xs[i] != ys[i];
      assert Records(xs, s, t, r)[i].key != Records(ys, s', t, r)[i].key;
    }
  }

  // ----- Deletions that are not saved as they were made

  /** Deleting every key as automatically disabled brings all of them back, enabled: the empty text is left out. */
  lemma AllDisabledKeysReturn(parse: ArrayParser, before: string, recs: seq<Record>)
    requires forall i :: 0 <= i < |recs| ==> recs[i].status == STATUS_AUTO_DISABLED
    ensures Survivors(recs) == []
    ensures var after := Reloaded(parse, Saved(before, []), map[], map[], map[]);
            && |after| == |GetKeys(parse, before)|
            && forall i :: 0 <= i < |after| ==> after[i] == Record(GetKeys(parse, before)[i], STATUS_ENABLED, None, None)
  {
    NoSurvivors(recs);
  }

  lemma {:induction false} NoSurvivors(recs: seq<Record>)
    requires forall i :: 0 <= i < |recs| ==> recs[i].status == STATUS_AUTO_DISABLED
    ensures Survivors(recs) == []
  {
    if recs != [] {
      NoSurvivors(recs[..|recs| - 1]);
    }
  }

  /**
   A blank line that becomes the first one shifts the indices: a disabled key behind it loses its status, and with it
   the channel has an enabled key again.
   */
  lemma BlankLineLosesStatus(parse: ArrayParser, before: string, key: string, status: int)
    requires OnePerLine([key]) && !IsArray(parse, [NEWLINE] + key)
    ensures Reloaded(parse, Saved(before, ["", key]), map[1 := status], map[], map[])
         == [Record(key, STATUS_ENABLED, None, None)]
  {
    hide IsArray, Lines, JoinKeys;
    BlankThenKey(key);
    KeptOfOne(status);
  }

  lemma KeptOfOne(status: int)
    ensures CutTo(map[1 := status], 1) == map[]
  {
  }

  lemma BlankThenKey(key: string)
    requires OnePerLine([key])
    ensures JoinKeys(["", key]) == [NEWLINE] + key && Lines([NEWLINE] + key) == [key]
  {
    var keys, text := ["", key], [NEWLINE] + key;
    assert keys[1..] == [key] && text[1..] == key;
    assert Join(keys, NEWLINE) == "" + [NEWLINE] + Join([key], NEWLINE);
    assert "" + [NEWLINE] + key == text;
    UntrimmedIff(key);
    SplitWhole(key, NEWLINE);
  }

  /** A key that spans lines, such as an indented JSON object, is read back as one key per line, all of them enabled. */
  lemma IndentedKeyFallsApart(parse: ArrayParser, before: string, key: string)
    requires NEWLINE in key && key[0] != NEWLINE && key[|key| - 1] != NEWLINE && !IsArray(parse, key)
    ensures var after := Reloaded(parse, Saved(before, [key]), map[], map[], map[]);
            && |after| == |Split(key, NEWLINE)| >= 2
            && (forall i :: 0 <= i < |after| ==> after[i] == Record(Split(key, NEWLINE)[i], STATUS_ENABLED, None, None))
  {
    hide IsArray, TrimStart, TrimEnd;
    assert JoinKeys([key]) == key;
    UntrimmedIff(key);
    SplitsInTwo(key);
  }

  lemma SplitsInTwo(text: string)
    requires NEWLINE in text
    ensures |Split(text, NEWLINE)| >= 2
  {
    JoinSplit(text, NEWLINE);
  }
}
