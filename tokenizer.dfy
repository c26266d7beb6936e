/** SimpleTokenizer.kt: the id-to-string table built from the vocabulary of
    `tokenizer.json`, the special ids of `config.json`, the fixed transcription
    prompt, the `<|...|>` test and detokenisation. Reading and parsing the two
    JSON assets is not modelled: the vocabulary arrives as its entries in
    iteration order, the configuration as a map from key to integer. */
module Tokenizer {
  import opened Text

  /** A vocabulary entry: a token string and its id. */
  type Entry = (string, int)

  /** The default of each `config.json` key. */
  const DefaultEos: int := 50257
  const DefaultSot: int := 50258
  const DefaultTranscribe: int := 50359
  const DefaultNoTimestamps: int := 50363

  /** `cfg.optInt(key, default)`. */
  function OptInt(config: map<string, int>, key: string, default: int): (v: int)
    ensures key in config ==> v == config[key]
    ensures key !in config ==> v == default
  {
    if key in config then config[key] else default
  }

  // ---------------------------------------------------------------------------
  // The table

  /** `arr` after the `while (it.hasNext())` loop has seen `entries`: `size`
      slots, starting as "", each entry with an id in range written to its slot. */
  function Table(entries: seq<Entry>, size: nat): (t: seq<string>)
    ensures |t| == size
  {
    if entries == [] then seq(size, _ => "")
    else
      var t := Table(entries[..|entries| - 1], size);
      var (k, id) := entries[|entries| - 1];
      if 0 <= id < size then t[id := k] else t
  }

  /** An entry with an id in range that no later entry reuses owns its slot. */
  lemma {:induction false} TableStores(entries: seq<Entry>, size: nat, j: nat)
    requires j < |entries| && 0 <= entries[j].1 < size
    requires forall l :: j < l < |entries| ==> entries[l].1 != entries[j].1
    ensures Table(entries, size)[entries[j].1] == entries[j].0
    decreases |entries|
  {
    if j < |entries| - 1 {
      var prefix := entries[..|entries| - 1];
      assert prefix[j] == entries[j];
      TableStores(prefix, size, j);
    }
  }

  /** A slot no entry names stays "". */
  lemma {:induction false} TableUnassigned(entries: seq<Entry>, size: nat, id: nat)
    requires id < size
    requires forall l :: 0 <= l < |entries| ==> entries[l].1 != id
    ensures Table(entries, size)[id] == ""
    decreases |entries|
  {
    if entries != [] {
      var prefix := entries[..|entries| - 1];
      assert forall l :: 0 <= l < |prefix| ==> prefix[l] == entries[l];
      TableUnassigned(prefix, size, id);
    }
  }

  /** The `init` loop over the vocabulary: `arr = Array(size) { "" }`, then
      `if (id in arr.indices) arr[id] = k` per entry. */
  method BuildTable(entries: seq<Entry>) returns (table: seq<string>)
    ensures table == Table(entries, |entries|)
  {
    var size := |entries|;
    var arr := new string[size](_ => "");
    assert arr[..] == Table([], size);
    var i := 0;
    while i < size
      invariant 0 <= i <= size && arr.Length == size
      invariant arr[..] == Table(entries[..i], size)
    {
      var (k, id) := entries[i];
      assert entries[..i + 1][..i] == entries[..i];
      if 0 <= id < arr.Length {
        arr[id] := k;
      }
      i := i + 1;
    }
    assert entries[..size] == entries;
    table := arr[..];
  }

  // ---------------------------------------------------------------------------
  // Lookup and the special test

  /** `if (id in id2tok.indices) id2tok[id] else ""`. */
  function Lookup(table: seq<string>, id: int): (s: string)
    ensures 0 <= id < |table| ==> s == table[id]
    ensures !(0 <= id < |table|) ==> s == ""
  {
    if 0 <= id < |table| then table[id] else ""
  }

  /** `isSpecial`: the token string starts with `<|` and ends with `|>`. */
  predicate IsSpecialIn(table: seq<string>, id: int)
  {
    var s := Lookup(table, id);
    StartsWith(s, "<|") && EndsWith(s, "|>")
  }

  /** An id outside the table maps to "" and is never special; an id in range
      is special exactly when its string has the `<|...|>` form, which the
      three-character string "<|>" already has. */
  lemma SpecialForm(table: seq<string>, id: int)
    ensures !(0 <= id < |table|) ==> !IsSpecialIn(table, id)
    ensures 0 <= id < |table| ==>
      (IsSpecialIn(table, id) <==>
        |table[id]| >= 2 && table[id][..2] == "<|" && table[id][|table[id]| - 2..] == "|>")
    ensures 0 <= id < |table| && table[id] == "<|>" ==> IsSpecialIn(table, id)
  {
    if 0 <= id < |table| {
      var t := table[id];
      assert Lookup(table, id) == t;
      assert IsSpecialIn(table, id) == (StartsWith(t, "<|") && EndsWith(t, "|>"));
      if t == "<|>" {
        assert t[..2] == "<|";
        assert t[|t| - 2..] == "|>";
      }
    } else {
      assert Lookup(table, id) == "";
    }
  }

  // ---------------------------------------------------------------------------
  // Detokenisation

  const Gdot: char := '\U{0120}'
  const LowLine: char := '\U{2581}'

  /** The marker clean-up of one kept token: `Ġ` (GPT-2) and `▁`
      (SentencePiece) become spaces, then `ÃĤ` becomes `Ĥ`. No marker survives. */
  function Clean(s: string): (r: string)
    ensures r == ReplaceAll(Substitute(Substitute(s, Gdot, ' '), LowLine, ' '), "\U{00C3}\U{0124}", "\U{0124}")
    ensures '\U{00C3}' !in s ==> r == Substitute(Substitute(s, Gdot, ' '), LowLine, ' ')
    ensures Gdot !in r && LowLine !in r
  {
    var a := ReplaceAll(s, [Gdot], " ");
    var b := ReplaceAll(a, [LowLine], " ");
    ReplaceCharIsSubstitute(s, Gdot, ' ');
    ReplaceCharIsSubstitute(a, LowLine, ' ');
    assert Gdot !in a by {
      forall k | 0 <= k < |a| ensures a[k] != Gdot { }
    }
    assert Gdot !in b && LowLine !in b by {
      forall k | 0 <= k < |b| ensures b[k] != Gdot && b[k] != LowLine { }
    }
    ReplaceAllAvoids(b, "\U{00C3}\U{0124}", "\U{0124}", Gdot);
    ReplaceAllAvoids(b, "\U{00C3}\U{0124}", "\U{0124}", LowLine);
    assert '\U{00C3}' !in s ==> ReplaceAll(b, "\U{00C3}\U{0124}", "\U{0124}") == b by {
      if '\U{00C3}' !in s {
        assert '\U{00C3}' !in b by {
          forall k | 0 <= k < |b| ensures b[k] != '\U{00C3}' { }
        }
        ReplaceAllAbsent(b, "\U{00C3}\U{0124}", "\U{0124}");
      }
    }
    ReplaceAll(b, "\U{00C3}\U{0124}", "\U{0124}")
  }

  /** The contents of the `StringBuilder` after the loop of `decode`: the ids
      before the first EOS, specials skipped (after the EOS test), every other
      id's string cleaned and appended. */
  function Raw(table: seq<string>, eos: int, ids: seq<int>): string
  {
    if ids == [] || ids[0] == eos then ""
    else Piece(table, ids[0]) + Raw(table, eos, ids[1..])
  }

  /** What a non-EOS id appends: nothing for a special id, the cleaned string
      otherwise. */
  function Piece(table: seq<string>, id: int): string
  {
    if IsSpecialIn(table, id) then "" else Clean(Lookup(table, id))
  }

  /** One step of the `decode` loop. */
  lemma RawStep(table: seq<string>, eos: int, ids: seq<int>, i: nat)
    requires i < |ids| && ids[i] != eos
    ensures Raw(table, eos, ids[i..]) == Piece(table, ids[i]) + Raw(table, eos, ids[i + 1..])
  {
    assert ids[i..][1..] == ids[i + 1..];
  }

  /** `decode`: runs of spaces collapsed, then trimmed. */
  function DecodeOf(table: seq<string>, eos: int, ids: seq<int>): string
  {
    Trim(Collapse(Raw(table, eos, ids)))
  }

  /** Nothing from the first EOS on reaches the output. */
  lemma {:induction false} RawStopsAtEos(table: seq<string>, eos: int, ids: seq<int>, more: seq<int>)
    requires eos in ids
    ensures Raw(table, eos, ids + more) == Raw(table, eos, ids)
    decreases |ids|
  {
    if ids[0] != eos {
      assert (ids + more)[1..] == ids[1..] + more;
      RawStopsAtEos(table, eos, ids[1..], more);
    }
  }

  /** Before any EOS, the output of a concatenation is the concatenation of the
      outputs. */
  lemma {:induction false} RawConcat(table: seq<string>, eos: int, ids: seq<int>, more: seq<int>)
    requires eos !in ids
    ensures Raw(table, eos, ids + more) == Raw(table, eos, ids) + Raw(table, eos, more)
    decreases |ids|
  {
    if ids == [] {
      assert ids + more == more;
    } else {
      var head, tail := Piece(table, ids[0]), ids[1..];
      assert Raw(table, eos, ids + more) == head + Raw(table, eos, tail + more) by {
        assert (ids + more)[0] == ids[0] != eos;
        assert (ids + more)[1..] == tail + more;
      }
      RawConcat(table, eos, tail, more);
      AppendAssoc(head, Raw(table, eos, tail), Raw(table, eos, more));
    }
  }

  /** Regrouping three appended strings. */
  lemma AppendAssoc(a: string, b: string, c: string)
    ensures a + (b + c) == (a + b) + c
  {
  }

  /** What a single id contributes: nothing for EOS, a special id or an id
      outside the table; the cleaned string otherwise. */
  lemma RawSingle(table: seq<string>, eos: int, id: int)
    ensures id == eos || IsSpecialIn(table, id) || !(0 <= id < |table|) ==> Raw(table, eos, [id]) == ""
    ensures id != eos && !IsSpecialIn(table, id) && 0 <= id < |table| ==> Raw(table, eos, [id]) == Clean(table[id])
  {
    assert [id][1..] == [];
  }

  /** A special id or an id outside the table, anywhere, can be deleted without
      changing the output. */
  lemma {:induction false} DroppedIds(table: seq<string>, eos: int, before: seq<int>, id: int, after: seq<int>)
    requires id != eos && (IsSpecialIn(table, id) || !(0 <= id < |table|))
    ensures Raw(table, eos, before + [id] + after) == Raw(table, eos, before + after)
    decreases |before|
  {
    if before == [] {
      assert before + [id] + after == [id] + after;
      assert before + after == after;
      assert ([id] + after)[1..] == after;
      assert Piece(table, id) == "" by {
        if !IsSpecialIn(table, id) {
          assert Lookup(table, id) == "";
          assert ReplaceAll("", [Gdot], " ") == "";
          assert ReplaceAll("", [LowLine], " ") == "";
          assert ReplaceAll("", "\U{00C3}\U{0124}", "\U{0124}") == "";
        }
      }
    } else if before[0] != eos {
      assert (before + [id] + after)[1..] == before[1..] + [id] + after;
      assert (before + after)[1..] == before[1..] + after;
      DroppedIds(table, eos, before[1..], id, after);
    } else {
      assert (before + [id] + after)[0] == eos && (before + after)[0] == eos;
    }
  }

  /** Appending ids after an EOS leaves the decoded text unchanged. */
  lemma DecodeIgnoresAfterEos(table: seq<string>, eos: int, ids: seq<int>, more: seq<int>)
    requires eos in ids
    ensures DecodeOf(table, eos, ids + more) == DecodeOf(table, eos, ids)
  {
    RawStopsAtEos(table, eos, ids, more);
  }

  /** The decoded text has no two consecutive spaces and neither starts nor
      ends with whitespace. */
  lemma DecodeShape(table: seq<string>, eos: int, ids: seq<int>)
    ensures var text := DecodeOf(table, eos, ids);
      NoDoubleSpace(text) && (text == [] || (!IsWhitespace(text[0]) && !IsWhitespace(text[|text| - 1])))
  {
    TrimKeepsNoDoubleSpace(Collapse(Raw(table, eos, ids)));
  }

  // ---------------------------------------------------------------------------
  // The tokenizer object

  class SimpleTokenizer {
    const id2tok: seq<string>
    const eosId: int
    const noTsId: int
    const sotId: int
    const transcribeId: int

    /** `init`, with the vocabulary and the configuration already parsed. */
    constructor(vocab: seq<Entry>, config: map<string, int>)
      ensures id2tok == Table(vocab, |vocab|)
      ensures eosId == OptInt(config, "eos_token_id", DefaultEos)
      ensures sotId == OptInt(config, "sot_token_id", DefaultSot)
      ensures transcribeId == OptInt(config, "transcribe_token_id", DefaultTranscribe)
      ensures noTsId == OptInt(config, "no_timestamps_token_id", DefaultNoTimestamps)
    {
      var table := BuildTable(vocab);
      id2tok := table;
      eosId := OptInt(config, "eos_token_id", DefaultEos);
      sotId := OptInt(config, "sot_token_id", DefaultSot);
      transcribeId := OptInt(config, "transcribe_token_id", DefaultTranscribe);
      noTsId := OptInt(config, "no_timestamps_token_id", DefaultNoTimestamps);
    }

    /** `promptIdsAuto`: start-of-transcript, transcribe, no-timestamps. */
    function PromptIdsAuto(): (ids: seq<int>)
      ensures |ids| == 3 && ids[0] == sotId && ids[1] == transcribeId && ids[2] == noTsId
    {
      [sotId, transcribeId, noTsId]
    }

    /** `isSpecial`: whether `id` names a `<|...|>` token of the vocabulary. */
    function IsSpecial(id: int): (special: bool)
      ensures !(0 <= id < |id2tok|) ==> !special
      ensures 0 <= id < |id2tok| ==>
        (special <==> |id2tok[id]| >= 2 && id2tok[id][..2] == "<|" && id2tok[id][|id2tok[id]| - 2..] == "|>")
    {
      SpecialForm(id2tok, id);
      IsSpecialIn(id2tok, id)
    }

    /** `decode`: the `StringBuilder` loop, then the collapse and the trim. */
    method Decode(ids: seq<int>) returns (text: string)
      ensures text == DecodeOf(id2tok, eosId, ids)
    {
      var sb := AppendTokens(id2tok, eosId, ids);
      text := Trim(Collapse(sb));
    }
  }

  /** The loop of `decode` over `ids`, with its `break` at EOS and its
      `continue` on a special id. */
  method AppendTokens(table: seq<string>, eos: int, ids: seq<int>) returns (sb: string)
    ensures sb == Raw(table, eos, ids)
  {
    sb := "";
    var i := 0;
    while i < |ids|
      invariant 0 <= i <= |ids|
      invariant sb + Raw(table, eos, ids[i..]) == Raw(table, eos, ids)
    {
      var id := ids[i];
      if id == eos {
        assert Raw(table, eos, ids[i..]) == "";
        break;
      }
      AppendStep(table, eos, ids, i, sb);
      var s := Lookup(table, id);
      if IsSpecialIn(table, id) {
        assert sb + Piece(table, id) == sb;
        i := i + 1;
        continue;
      }
      sb := sb + Clean(s);
      i := i + 1;
    }
  }

  /** Appending the piece of a non-EOS id moves one id from the unread part
      into the builder. */
  lemma AppendStep(table: seq<string>, eos: int, ids: seq<int>, i: nat, sb: string)
    requires i < |ids| && ids[i] != eos
    requires sb + Raw(table, eos, ids[i..]) == Raw(table, eos, ids)
    ensures (sb + Piece(table, ids[i])) + Raw(table, eos, ids[i + 1..]) == Raw(table, eos, ids)
  {
    RawStep(table, eos, ids, i);
  }

  /** With a configuration that names none of the ids, the prompt is Whisper's
      `<|startoftranscript|> <|transcribe|> <|notimestamps|>`. */
  lemma DefaultPrompt(t: SimpleTokenizer, config: map<string, int>)
    requires t.sotId == OptInt(config, "sot_token_id", DefaultSot)
    requires t.transcribeId == OptInt(config, "transcribe_token_id", DefaultTranscribe)
    requires t.noTsId == OptInt(config, "no_timestamps_token_id", DefaultNoTimestamps)
    requires "sot_token_id" !in config && "transcribe_token_id" !in config && "no_timestamps_token_id" !in config
    ensures t.PromptIdsAuto() == [50258, 50359, 50363]
  {
  }
}
