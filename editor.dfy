/** `MetadataEditor.interactive_edit`: five prompts, one line of input
    each, in the order title, artist, album, year, description. The record
    is the caller's dict and is changed in place.

    A line is stripped of surrounding whitespace; a non-empty result
    replaces the field, an empty one keeps it, except that an empty album
    line copies the artist into the album whenever the artist (as it
    stands after its own prompt) is truthy. When the input runs out,
    `input()` raises EOFError at the next prompt: the fields edited so far
    stay edited and the exception leaves the function. */
module Editor {
  import opened Text
  import opened Values

  /** The mutable dict the editor receives and returns. */
  class Metadata {
    var rec: Record

    constructor(r: Record)
      ensures rec == r
    {
      rec := r;
    }
  }

  /** The edited keys, in prompt order. */
  const Keys: seq<string> := ["title", "artist", "album", "year", "description"]

  /** The five keys are five different strings. */
  lemma KeysDistinct()
    ensures forall i, j :: 0 <= i < j < 5 ==> Keys[i] != Keys[j]
  {
    assert "title"[0] != "album"[0];
  }

  const Labels: seq<string> :=
    ["Title", "Artist/Uploader", "Album (leave blank to use Artist)", "Year", "Description"]

  /** The text shown for the current value: `(not set)` for a falsy value,
      and a value longer than 60 characters cut to its first 57 followed
      by `...`. */
  function DisplayValue(v: Value): (r: string)
    ensures |r| <= 60
    ensures !Truthy(v) ==> r == "(not set)"
    ensures Truthy(v) && |ToStr(v)| <= 60 ==> r == ToStr(v)
    ensures Truthy(v) && |ToStr(v)| > 60 ==> |r| == 60 && r[..57] == ToStr(v)[..57] && r[57..] == "..."
  {
    var shown := if Truthy(v) then ToStr(v) else "(not set)";
    if |shown| > 60 then shown[..57] + "..." else shown
  }

  /** The prompt printed before reading the line for field `k`. */
  function Prompt(k: nat, v: Value): string
    requires k < 5
  {
    Labels[k] + "\n  Current: " + DisplayValue(v) + "\n  New value: "
  }

  /** What `input(prompt).strip()` returns for each line typed. */
  function Answers(lines: seq<string>): (r: seq<string>)
    ensures |r| == |lines|
  {
    seq(|lines|, i requires 0 <= i < |lines| => Strip(lines[i]))
  }

  /** One prompt's effect on the record, given the stripped answer. */
  function EditField(rec: Record, key: string, answer: string): (r: Record)
    ensures forall k :: k in rec ==> k in r
    ensures forall k :: k in r && k != key ==> k in rec && r[k] == rec[k]
    ensures key in r && key !in rec ==> Truthy(r[key])
  {
    if answer != "" then rec[key := Str(answer)]
    else if key == "album" && Truthy(Get(rec, "artist")) then rec[key := rec["artist"]]
    else rec
  }

  /** The record after the first `n` prompts. */
  function EditFirst(rec: Record, answers: seq<string>, n: nat): Record
    requires n <= 5 && n <= |answers|
  {
    if n == 0 then rec
    else EditField(EditFirst(rec, answers, n - 1), Keys[n - 1], answers[n - 1])
  }

  /** The record after every prompt: the first five answers are used and
      the rest are left unread. */
  function EditAll(rec: Record, answers: seq<string>): Record
    requires |answers| >= 5
  {
    EditFirst(rec, answers, 5)
  }

  /** The prompts shown for the first `n` fields. */
  function PromptsFor(rec: Record, answers: seq<string>, n: nat): (r: seq<string>)
    requires n <= 5 && n <= |answers| + 1
    ensures |r| == n
  {
    if n == 0 then []
    else PromptsFor(rec, answers, n - 1) + [Prompt(n - 1, Get(EditFirst(rec, answers, n - 1), Keys[n - 1]))]
  }

  /** One prompt's update of the dict, from the line typed. */
  method ApplyAnswer(m: Metadata, key: string, line: string)
    modifies m
    ensures m.rec == EditField(old(m.rec), key, Strip(line))
  {
    var userInput := Strip(line);
    if userInput != "" {
      m.rec := m.rec[key := Str(userInput)];
    } else if key == "album" && userInput == "" {
      if Truthy(Get(m.rec, "artist")) {
        m.rec := m.rec[key := m.rec["artist"]];
      }
    }
  }

  /** `interactive_edit(m)` reading `input`: returns the prompts shown and
      whether all five were answered (false: EOFError at the last prompt
      shown). */
  method InteractiveEdit(m: Metadata, input: seq<string>) returns (prompts: seq<string>, finished: bool)
    modifies m
    ensures finished <==> |input| >= 5
    ensures var n := if |input| < 5 then |input| else 5;
      && m.rec == EditFirst(old(m.rec), Answers(input), n)
      && prompts == PromptsFor(old(m.rec), Answers(input), if finished then 5 else n + 1)
  {
    prompts := [];
    ghost var answers := Answers(input);
    var i := 0;
    while i < 5
      invariant 0 <= i <= 5 && i <= |input|
      invariant m.rec == EditFirst(old(m.rec), answers, i)
      invariant prompts == PromptsFor(old(m.rec), answers, i)
    {
      var key := Keys[i];
      prompts := prompts + [Prompt(i, Get(m.rec, key))];
      if i == |input| {
        return prompts, false;
      }
      ApplyAnswer(m, key, input[i]);
      assert Strip(input[i]) == answers[i];
      i := i + 1;
    }
    finished := true;
  }

  // ---------------------------------------------------------------------
  // What the editor promises

  /** The value a field ends with when its own answer is the last word on
      it: the answer if non-empty, the earlier value otherwise. */
  function Typed(before: Value, answer: string): Value
  {
    if answer != "" then Str(answer) else before
  }

  /** Prompts `i` up to `j` leave every other key as it was. */
  lemma {:induction false} StepsKeep(rec: Record, answers: seq<string>, i: nat, j: nat, k: string)
    requires i <= j <= 5 && j <= |answers|
    requires forall n :: i <= n < j ==> Keys[n] != k
    ensures k in EditFirst(rec, answers, j) <==> k in EditFirst(rec, answers, i)
    ensures Get(EditFirst(rec, answers, j), k) == Get(EditFirst(rec, answers, i), k)
    decreases j
  {
    if j > i {
      StepsKeep(rec, answers, i, j - 1, k);
    }
  }

  /** No key is dropped, and a key the editor adds holds a truthy value. */
  lemma {:induction false} StepsGrow(rec: Record, answers: seq<string>, j: nat)
    requires j <= 5 && j <= |answers|
    ensures forall k :: k in rec ==> k in EditFirst(rec, answers, j)
    ensures forall k :: k in EditFirst(rec, answers, j) && k !in rec ==> Truthy(EditFirst(rec, answers, j)[k])
  {
    if j > 0 {
      StepsGrow(rec, answers, j - 1);
    }
  }

  /** Field by field: title, artist, year and description take the
      stripped line when it is non-empty and keep their value otherwise;
      album does the same, except that a blank album line copies the
      edited artist when that is truthy. */
  lemma EditAllFields(rec: Record, answers: seq<string>)
    requires |answers| >= 5
    ensures var r := EditAll(rec, answers);
      var artist := Typed(Get(rec, "artist"), answers[1]);
      && Get(r, "title") == Typed(Get(rec, "title"), answers[0])
      && Get(r, "artist") == artist
      && Get(r, "album") == (if answers[2] == "" && Truthy(artist) then artist
                              else Typed(Get(rec, "album"), answers[2]))
      && Get(r, "year") == Typed(Get(rec, "year"), answers[3])
      && Get(r, "description") == Typed(Get(rec, "description"), answers[4])
  {
    KeysDistinct();
    var r1 := EditFirst(rec, answers, 1);
    var r2 := EditFirst(rec, answers, 2);
    var r3 := EditFirst(rec, answers, 3);
    var r4 := EditFirst(rec, answers, 4);
    StepsKeep(rec, answers, 1, 5, "title");
    StepsKeep(rec, answers, 0, 1, "artist");
    StepsKeep(rec, answers, 2, 5, "artist");
    StepsKeep(rec, answers, 0, 2, "album");
    StepsKeep(rec, answers, 3, 5, "album");
    StepsKeep(rec, answers, 0, 3, "year");
    StepsKeep(rec, answers, 4, 5, "year");
    StepsKeep(rec, answers, 0, 4, "description");
    assert r1 == EditField(rec, Keys[0], answers[0]);
    assert r2 == EditField(r1, Keys[1], answers[1]);
    assert r3 == EditField(r2, Keys[2], answers[2]);
    assert r4 == EditField(r3, Keys[3], answers[3]);
    assert EditAll(rec, answers) == EditField(r4, Keys[4], answers[4]);
  }

  /** No key outside the five is added, removed or changed. */
  lemma EditAllOthers(rec: Record, answers: seq<string>, k: string)
    requires |answers| >= 5 && k !in Keys
    ensures k in EditAll(rec, answers) <==> k in rec
    ensures Get(EditAll(rec, answers), k) == Get(rec, k)
  {
    StepsKeep(rec, answers, 0, 5, k);
  }

  /** Two records that agree on `Get` everywhere, and whose extra keys hold
      only truthy values, are the same record. */
  lemma SameByGet(a: Record, b: Record)
    requires forall k :: Get(a, k) == Get(b, k)
    requires forall k :: k in a && k !in b ==> Truthy(a[k])
    requires forall k :: k in b && k !in a ==> Truthy(b[k])
    ensures a == b
  {
    forall k | k in a
      ensures k in b && a[k] == b[k]
    {
      assert Get(a, k) == Get(b, k);
    }
    forall k | k in b
      ensures k in a
    {
      assert Get(a, k) == Get(b, k);
    }
  }

  /** Answering the prompts a second time with the same answers changes
      nothing more. */
  lemma EditAllIdempotent(rec: Record, answers: seq<string>)
    requires |answers| >= 5
    ensures EditAll(EditAll(rec, answers), answers) == EditAll(rec, answers)
  {
    var r := EditAll(rec, answers);
    var rr := EditAll(r, answers);
    EditAllFields(rec, answers);
    EditAllFields(r, answers);
    StepsGrow(r, answers, 5);
    forall k
      ensures Get(rr, k) == Get(r, k)
    {
      if k !in Keys {
        EditAllOthers(r, answers, k);
      }
    }
    SameByGet(rr, r);
  }

  /** Five blank answers (empty or whitespace-only lines) keep every field, except that the
      album becomes the artist when the artist is truthy. */
  lemma BlankInput(rec: Record)
    ensures var r := EditAll(rec, ["", "", "", "", ""]);
      && (Truthy(Get(rec, "artist")) ==> r == rec["album" := rec["artist"]])
      && (!Truthy(Get(rec, "artist")) ==> r == rec)
  {
    var answers := ["", "", "", "", ""];
    var r := EditAll(rec, answers);
    EditAllFields(rec, answers);
    StepsGrow(rec, answers, 5);
    forall k | k !in Keys
      ensures Get(r, k) == Get(rec, k)
    {
      EditAllOthers(rec, answers, k);
    }
    if Truthy(Get(rec, "artist")) {
      SameByGet(r, rec["album" := rec["artist"]]);
    } else {
      SameByGet(r, rec);
    }
  }

  /** Ending input after the artist line leaves title and artist edited
      and the album untouched, and shows the album prompt last. */
  method EarlyEndOfInput(rec: Record, t: string, a: string) returns (r: Record, shown: nat)
    requires Strip(t) != "" && Strip(a) != ""
    ensures r == rec["title" := Str(Strip(t))]["artist" := Str(Strip(a))]
    ensures shown == 3
  {
    var m := new Metadata(rec);
    var prompts, finished := InteractiveEdit(m, [t, a]);
    assert EditFirst(rec, Answers([t, a]), 1) == rec["title" := Str(Strip(t))];
    r, shown := m.rec, |prompts|;
  }
}
