/**
 The text the Copy button places on the clipboard: every report entry
 followed by a newline, the last one included. SplitLines reads such a text
 back into its entries.
 */
module ClipboardText {

  /** Sum of the lengths of `entries`. */
  function TotalLength(entries: seq<string>): nat
  {
    if entries == [] then 0 else |entries[0]| + TotalLength(entries[1..])
  }

  predicate NoNewlines(entries: seq<string>)
  {
    forall i :: 0 <= i < |entries| ==> '\n' !in entries[i]
  }

  /** Each entry in turn, each one terminated by "\n". */
  function Serialize(entries: seq<string>): (text: string)
    ensures |text| == TotalLength(entries) + |entries|
    ensures entries == [] <==> text == ""
    ensures entries != [] ==> text[|text| - 1] == '\n'
  {
    if entries == [] then "" else entries[0] + "\n" + Serialize(entries[1..])
  }

  /** Serializing a concatenation is concatenating the serializations. */
  lemma {:induction false} SerializeAppend(a: seq<string>, b: seq<string>)
    ensures Serialize(a + b) == Serialize(a) + Serialize(b)
  {
    if a == [] {
      assert a + b == b;
    } else {
      assert (a + b)[1..] == a[1..] + b;
      SerializeAppend(a[1..], b);
    }
  }

  /** Index of the first newline of `s`, or |s| when there is none. */
  function NewlineIndex(s: string): (k: nat)
    ensures k <= |s|
    ensures k < |s| ==> s[k] == '\n'
    ensures forall i :: 0 <= i < k ==> s[i] != '\n'
  {
    if s == [] || s[0] == '\n' then 0 else 1 + NewlineIndex(s[1..])
  }

  /** Newline-terminated lines of `text`; a last line without terminator is kept. */
  function SplitLines(text: string): seq<string>
    decreases |text|
  {
    if text == [] then []
    else
      var k := NewlineIndex(text);
      if k == |text| then [text] else [text[..k]] + SplitLines(text[k + 1..])
  }

  /** Reading the copied text back at its newlines recovers the entries, when no entry holds a newline. */
  lemma {:induction false} SplitSerialize(entries: seq<string>)
    requires NoNewlines(entries)
    ensures SplitLines(Serialize(entries)) == entries
  {
    if entries != [] {
      var e := entries[0];
      var rest := Serialize(entries[1..]);
      var text := Serialize(entries);
      assert text == e + "\n" + rest;
      var k := NewlineIndex(text);
      assert text[|e|] == '\n';
      assert '\n' !in e;
      assert forall i :: 0 <= i < |e| ==> text[i] == e[i];
      assert k == |e|;
      assert text[..k] == e;
      assert text[k + 1..] == rest;
      assert NoNewlines(entries[1..]) by {
        forall i | 0 <= i < |entries[1..]| ensures '\n' !in entries[1..][i] {
          assert entries[1..][i] == entries[i + 1];
        }
      }
      SplitSerialize(entries[1..]);
    }
  }

  /** Two entries give each entry on its own newline-terminated line. */
  lemma SerializeExample()
    ensures Serialize(["F1: a", "F2: b"]) == "F1: a\nF2: b\n"
  {
    assert Serialize(["F1: a", "F2: b"]) == "F1: a" + "\n" + ("F2: b" + "\n" + "");
  }
}
