/** `validate_ticket_data` of app.py and the `str.strip()` it relies on. */
module Validation {
  import opened Models

  /** The code points for which Python's `str.isspace()` holds; `str.strip()`
      with no argument removes exactly these from both ends. */
  predicate IsSpace(c: char) {
    || '\t' <= c <= '\r'
    || '\U{001C}' <= c <= ' '
    || c == '\U{0085}' || c == '\U{00A0}' || c == '\U{1680}'
    || '\U{2000}' <= c <= '\U{200A}'
    || c == '\U{2028}' || c == '\U{2029}' || c == '\U{202F}' || c == '\U{205F}'
    || c == '\U{3000}'
  }

  predicate AllSpace(s: string) {
    forall k :: 0 <= k < |s| ==> IsSpace(s[k])
  }

  /** `s.lstrip()`: drops whitespace from the front (see `TrimStartSpec`). */
  function TrimStart(s: string): (r: string)
    ensures |r| <= |s|
    ensures r != [] ==> !IsSpace(r[0])
  {
    if s != [] && IsSpace(s[0]) then TrimStart(s[1..]) else s
  }

  /** `s.rstrip()`: drops whitespace from the back (see `TrimEndSpec`). */
  function TrimEnd(s: string): (r: string)
    ensures |r| <= |s|
    ensures r != [] ==> !IsSpace(r[|r| - 1])
  {
    if s != [] && IsSpace(s[|s| - 1]) then TrimEnd(s[..|s| - 1]) else s
  }

  /** `s.strip()`: never longer than `s`, and starting and ending with a
      character other than whitespace (see `TrimSpec` for the rest). */
  function Trim(s: string): (r: string)
    ensures |r| <= |s|
    ensures r != [] ==> !IsSpace(r[0]) && !IsSpace(r[|r| - 1])
  {
    var t := TrimStart(s);
    TrimEndSpec(t);
    TrimEnd(t)
  }

  /** `TrimStart(s)` is the longest suffix of `s` that does not start with
      whitespace. */
  lemma {:induction false} TrimStartSpec(s: string)
    ensures var r := TrimStart(s);
      && |r| <= |s| && r == s[|s| - |r|..]
      && AllSpace(s[..|s| - |r|])
      && (r != [] ==> !IsSpace(r[0]))
  {
    if s != [] && IsSpace(s[0]) {
      TrimStartSpec(s[1..]);
      var r := TrimStart(s);
      assert s[1..][|s| - 1 - |r|..] == s[|s| - |r|..];
      assert s[..|s| - |r|] == [s[0]] + s[1..][..|s| - 1 - |r|];
    }
  }

  /** `TrimEnd(s)` is the longest prefix of `s` that does not end with
      whitespace. */
  lemma {:induction false} TrimEndSpec(s: string)
    ensures var r := TrimEnd(s);
      && |r| <= |s| && r == s[..|r|]
      && AllSpace(s[|r|..])
      && (r != [] ==> !IsSpace(r[|r| - 1]))
  {
    if s != [] && IsSpace(s[|s| - 1]) {
      var p := s[..|s| - 1];
      TrimEndSpec(p);
      var r := TrimEnd(s);
      assert p[..|r|] == s[..|r|];
      assert s[|r|..] == p[|r|..] + [s[|s| - 1]];
    }
  }

  /** `Trim(s)` is the infix of `s` left after removing whitespace at both
      ends: it starts and ends with a non-whitespace character, only
      whitespace lies around it, and it is empty exactly when `s` is all
      whitespace. */
  lemma {:induction false} TrimSpec(s: string)
    ensures var r := Trim(s);
      && |r| <= |s|
      && (r == [] <==> AllSpace(s))
      && (r != [] ==> !IsSpace(r[0]) && !IsSpace(r[|r| - 1]))
      && var i := |s| - |TrimStart(s)|;
           && 0 <= i && i + |r| <= |s| && s[i..i + |r|] == r
           && AllSpace(s[..i]) && AllSpace(s[i + |r|..])
  {
    var t := TrimStart(s);
    TrimStartSpec(s);
    TrimEndSpec(t);
    var r := TrimEnd(t);
    assert Trim(s) == r;
    var i := |s| - |t|;
    assert s[i..i + |r|] == t[..|r|] == r;
    assert s[i + |r|..] == t[|r|..];
    if r == [] {
      assert t == [];
      assert s[..i] == s;
    } else {
      assert s[i] == r[0];
      assert !AllSpace(s);
    }
  }

  /** Leading whitespace up to the first other character is what `TrimStart` removes. */
  lemma {:induction false} TrimStartAt(s: string, i: int)
    requires 0 <= i < |s| && AllSpace(s[..i]) && !IsSpace(s[i])
    ensures TrimStart(s) == s[i..]
  {
    if i > 0 {
      assert IsSpace(s[..i][0]);
      assert s[1..][..i - 1] == s[..i][1..];
      TrimStartAt(s[1..], i - 1);
      assert s[1..][i - 1..] == s[i..];
    }
  }

  /** Trailing whitespace after the last other character is what `TrimEnd` removes. */
  lemma {:induction false} TrimEndAt(s: string, j: int)
    requires 0 < j <= |s| && AllSpace(s[j..]) && !IsSpace(s[j - 1])
    ensures TrimEnd(s) == s[..j]
  {
    if j < |s| {
      assert IsSpace(s[j..][|s| - 1 - j]);
      var p := s[..|s| - 1];
      assert p[j..] == s[j..][..|s| - 1 - j];
      TrimEndAt(p, j);
      assert p[..j] == s[..j];
    }
  }

  /** `Trim` agrees with the independent description of stripping: when
      `s[i..j]` starts and ends with a non-whitespace character and only
      whitespace lies outside it, it is `Trim(s)`. (The all-whitespace case
      is the second postcondition of `Trim`.) */
  lemma {:induction false} TrimCharacterised(s: string, i: int, j: int)
    requires 0 <= i < j <= |s|
    requires AllSpace(s[..i]) && AllSpace(s[j..])
    requires !IsSpace(s[i]) && !IsSpace(s[j - 1])
    ensures Trim(s) == s[i..j]
  {
    TrimStartAt(s, i);
    var t := s[i..];
    assert TrimStart(s) == t;
    assert t[j - i..] == s[j..];
    TrimEndAt(t, j - i);
    assert TrimEnd(t) == s[i..j];
  }

  /** Stripping twice is stripping once. */
  lemma TrimIdempotent(s: string)
    ensures Trim(Trim(s)) == Trim(s)
  {
    var r := Trim(s);
    TrimSpec(s);
    if r != [] {
      TrimCharacterised(r, 0, |r|);
    }
  }

  /** What a request body can be faulted for; each has one fixed message. */
  datatype Problem =
    | TitleRequired
    | TitleLength
    | DescriptionRequired
    | DescriptionLength
    | PriorityInvalid

  /** The rank of the field a problem is about, in the order the fields are
      checked: title, description, priority. */
  function Field(p: Problem): nat {
    match p
    case TitleRequired | TitleLength => 0
    case DescriptionRequired | DescriptionLength => 1
    case PriorityInvalid => 2
  }

  /** The message the handler reports for a problem; the priority message
      lists the enumeration with `", ".join(...)`. */
  function Message(p: Problem): (r: string)
    ensures |r| > 12
    ensures Field(p) == 0 <==> r[0] == 'T'
    ensures Field(p) == 1 <==> r[0] == 'D'
    ensures Field(p) == 2 <==> r[0] == 'P'
  {
    match p
    case TitleRequired => "Title is required"
    case TitleLength => "Title must be between 3 and 120 characters"
    case DescriptionRequired => "Description is required"
    // Two literals joined: the verifier cannot index into one this long.
    case DescriptionLength => "Description " + "must be between 1 and 1000 characters"
    case PriorityInvalid => "Priority must be one of: " + Join(ValidPriorities(), ", ")
  }

  /** Different problems are reported with different messages. */
  lemma MessageInjective(p: Problem, q: Problem)
    ensures p != q ==> Message(p) != Message(q)
  {
    if p != q && Message(p)[0] == Message(q)[0] && Message(p)[0] != 'P' {
      assert Message(p)[6] != Message(q)[6] || Message(p)[12] != Message(q)[12];
    }
  }

  /** The priority message names the three priorities in order. */
  lemma PriorityMessageText()
    ensures Message(PriorityInvalid) == "Priority must be one of: low, medium, high"
  {
    assert Join(ValidPriorities()[2..], ", ") == "high";
    assert Join(ValidPriorities()[1..], ", ") == "medium, high";
  }

  /** The list of messages, in order, as it goes into the `errors` body. */
  function Messages(problems: seq<Problem>): (r: seq<string>)
    ensures |r| == |problems|
    ensures forall i :: 0 <= i < |r| ==> r[i] == Message(problems[i])
  {
    if problems == [] then [] else [Message(problems[0])] + Messages(problems[1..])
  }

  /** `data.get(key, '')` on the request body. */
  function Get(data: map<string, string>, key: string): string {
    if key in data then data[key] else ""
  }

  predicate TitleValid(title: string) {
    3 <= |Trim(title)| <= 120
  }

  predicate DescriptionValid(description: string) {
    1 <= |Trim(description)| <= 1000
  }

  predicate PriorityValid(priority: string) {
    priority in ValidPriorities()
  }

  /** A request body that passes validation: the three field bounds. */
  predicate TicketDataValid(data: map<string, string>) {
    && TitleValid(Get(data, "title"))
    && DescriptionValid(Get(data, "description"))
    && PriorityValid(Get(data, "priority"))
  }

  /** Title check: at most one problem, none exactly when the stripped title
      has 3 to 120 characters; an empty title is "required", never "length". */
  function TitleProblems(raw: string): (ps: seq<Problem>)
    ensures ps == [] || ps == [TitleRequired] || ps == [TitleLength]
    ensures ps == [] <==> TitleValid(raw)
    ensures ps == [TitleRequired] <==> Trim(raw) == []
  {
    var title := Trim(raw);
    if title == [] then [TitleRequired]
    else if |title| < 3 || |title| > 120 then [TitleLength]
    else []
  }

  /** Description check. The `< 1` half of its length test cannot fire, since
      a non-empty stripped description has at least one character: the length
      problem is raised exactly for more than 1000 characters. */
  function DescriptionProblems(raw: string): (ps: seq<Problem>)
    ensures ps == [] || ps == [DescriptionRequired] || ps == [DescriptionLength]
    ensures ps == [] <==> DescriptionValid(raw)
    ensures ps == [DescriptionRequired] <==> Trim(raw) == []
    ensures ps == [DescriptionLength] <==> |Trim(raw)| > 1000
  {
    var description := Trim(raw);
    if description == [] then [DescriptionRequired]
    else if |description| < 1 || |description| > 1000 then [DescriptionLength]
    else []
  }

  /** Priority check: compared as given, without stripping. */
  function PriorityProblems(priority: string): (ps: seq<Problem>)
    ensures ps == [] || ps == [PriorityInvalid]
    ensures ps == [] <==> PriorityValid(priority)
  {
    if priority !in ValidPriorities() then [PriorityInvalid] else []
  }

  /** In the concatenated list, each kind of problem can only have come from
      its own field. */
  lemma ProblemsOfConcat(title: seq<Problem>, description: seq<Problem>, priority: seq<Problem>)
    requires title == [] || title == [TitleRequired] || title == [TitleLength]
    requires description == [] || description == [DescriptionRequired] || description == [DescriptionLength]
    requires priority == [] || priority == [PriorityInvalid]
    ensures var all := title + description + priority;
      && (TitleRequired in all <==> title == [TitleRequired])
      && (TitleLength in all <==> title == [TitleLength])
      && (DescriptionRequired in all <==> description == [DescriptionRequired])
      && (DescriptionLength in all <==> description == [DescriptionLength])
      && (PriorityInvalid in all <==> priority == [PriorityInvalid])
      && |all| <= 3
      && (|all| >= 2 ==> Field(all[0]) < Field(all[1]))
      && (|all| == 3 ==> Field(all[1]) < Field(all[2]))
  {
  }

  /** `validate_ticket_data(data)`, with the problems named rather than
      spelled out: every field is checked whatever the others give, each
      contributes at most one problem, in the order title, description,
      priority. The list is empty exactly when the three bounds hold, and
      then the body names all three fields. */
  function ValidateTicketData(data: map<string, string>): (problems: seq<Problem>)
    ensures |problems| <= 3
    ensures problems == [] <==> TicketDataValid(data)
    ensures problems == [] ==> "title" in data && "description" in data && "priority" in data
    ensures (TitleRequired in problems || TitleLength in problems) <==> !TitleValid(Get(data, "title"))
    ensures (DescriptionRequired in problems || DescriptionLength in problems)
              <==> !DescriptionValid(Get(data, "description"))
    ensures PriorityInvalid in problems <==> !PriorityValid(Get(data, "priority"))
    ensures TitleRequired in problems <==> Trim(Get(data, "title")) == []
    ensures DescriptionRequired in problems <==> Trim(Get(data, "description")) == []
    ensures DescriptionLength in problems <==> |Trim(Get(data, "description"))| > 1000
    ensures |problems| >= 2 ==> Field(problems[0]) < Field(problems[1])
    ensures |problems| == 3 ==> Field(problems[1]) < Field(problems[2])
  {
    assert Trim("") == [];
    var title := TitleProblems(Get(data, "title"));
    var description := DescriptionProblems(Get(data, "description"));
    var priority := PriorityProblems(Get(data, "priority"));
    assert "title" !in data ==> title == [TitleRequired];
    assert "description" !in data ==> description == [DescriptionRequired];
    assert "priority" !in data ==> priority == [PriorityInvalid];
    ProblemsOfConcat(title, description, priority);
    var all := title + description + priority;
    assert all == [] <==> title == [] && description == [] && priority == [];
    all
  }

  /** A title that is empty after stripping is reported as required, and
      never as having the wrong length. */
  lemma EmptyTitleIsRequired(data: map<string, string>)
    requires Trim(Get(data, "title")) == []
    ensures TitleRequired in ValidateTicketData(data)
    ensures TitleLength !in ValidateTicketData(data)
  {
    var title := TitleProblems(Get(data, "title"));
    assert title == [TitleRequired];
    ProblemsOfConcat(title, DescriptionProblems(Get(data, "description")),
                     PriorityProblems(Get(data, "priority")));
  }

  /** The title is checked after stripping but stored as sent, so a title that
      passes validation can be longer than 120 characters. */
  lemma PaddedTitlePasses()
    ensures var data := map["title" := "abc" + seq(118, _ => ' '),
                            "description" := "d", "priority" := "low"];
            ValidateTicketData(data) == [] && |data["title"]| > 120
  {
    var title := "abc" + seq(118, _ => ' ');
    assert title[3..] == seq(118, _ => ' ');
    TrimCharacterised(title, 0, 3);
    assert title[0..3] == "abc";
    assert "d"[..0] == [] && "d"[1..] == [];
    TrimCharacterised("d", 0, 1);
  }
}
