/** The admin "add event" form: its fields, the change handler, the
    comma-separated tech-stack parsing and the body it posts. */
module AddEvent {
  import opened Wrappers
  import opened Records
  import opened Seqs
  import opened Text
  import opened EventController

  /** The `name` attributes of the form's inputs. */
  datatype FormField = Title | Description | Location | Date | Time | TechStack

  /** The form state: every input is text. */
  datatype FormData = FormData(
    title: string,
    description: string,
    location: string,
    date: string,
    time: string,
    techStack: string)

  /** The form's initial contents: a sample event with an empty tech stack. */
  const InitialForm: FormData := FormData(
    "Global AI Innovation Summit",
    "Join the brightest minds for a 48-hour sprint building the next generation of AI-driven tools. $50k in prizes.",
    "Innovation Center, San Francisco, CA",
    "2024-10-24",
    "09:00",
    "")

  function Get(form: FormData, f: FormField): string {
    match f
    case Title => form.title
    case Description => form.description
    case Location => form.location
    case Date => form.date
    case Time => form.time
    case TechStack => form.techStack
  }

  /** `handleChange`: a copy of the form with the named field replaced. */
  function HandleChange(form: FormData, f: FormField, value: string): (r: FormData)
    ensures Get(r, f) == value
    ensures forall g :: g != f ==> Get(r, g) == Get(form, g)
  {
    match f
    case Title => form.(title := value)
    case Description => form.(description := value)
    case Location => form.(location := value)
    case Date => form.(date := value)
    case Time => form.(time := value)
    case TechStack => form.(techStack := value)
  }

  /** Writing a field twice keeps the second value; writing back what a field
      holds changes nothing. */
  lemma HandleChangeLaws(form: FormData, f: FormField, v: string, w: string)
    ensures HandleChange(HandleChange(form, f, v), f, w) == HandleChange(form, f, w)
    ensures HandleChange(form, f, Get(form, f)) == form
  {
  }

  predicate NonEmpty(t: string) {
    |t| > 0
  }

  /** The pieces between commas, each trimmed, in input order. */
  function TrimmedPieces(s: string): (r: seq<string>)
    ensures |r| == |Split(s, ',')| == Count(s, ',') + 1
    ensures forall i :: 0 <= i < |r| ==> r[i] == Trim(Split(s, ',')[i])
    ensures forall i :: 0 <= i < |r| ==> Trimmed(r[i]) && ',' !in r[i]
  {
    SplitCount(s, ',');
    var pieces := Split(s, ',');
    var r := Map(pieces, Trim);
    forall i | 0 <= i < |r| ensures ',' !in r[i] {
      TrimSubstring(pieces[i]);
    }
    r
  }

  /** Every character of a trimmed string comes from the untrimmed one. */
  lemma TrimSubstring(s: string)
    ensures forall c :: c in Trim(s) ==> c in s
  {
    var t := TrimStart(s);
    assert forall c :: c in TrimEnd(t) ==> c in t;
    assert forall c :: c in t ==> c in s;
  }

  /** The tech-stack input turned into the posted array: split on commas,
      trim each piece, drop the empty ones. */
  function ParseTechStack(s: string): (r: seq<string>)
    ensures forall t :: t in r ==> t != "" && Trimmed(t) && ',' !in t
    ensures |r| <= Count(s, ',') + 1
    ensures IsSubseq(r, TrimmedPieces(s))
    ensures forall t :: t in r <==> t in TrimmedPieces(s) && t != ""
  {
    var pieces := TrimmedPieces(s);
    FilterIsSubseq(pieces, NonEmpty);
    Filter(pieces, NonEmpty)
  }

  /** Each non-empty trimmed piece is kept as often as it occurs, and no
      empty one is. */
  lemma ParseTechStackCounts(s: string, t: string)
    ensures multiset(ParseTechStack(s))[t] == if t == "" then 0 else multiset(TrimmedPieces(s))[t]
  {
    FilterCounts(TrimmedPieces(s), NonEmpty);
  }

  /** Every character of a piece comes from the input. */
  lemma {:induction false} SplitPieceChars(s: string, sep: char, k: nat)
    requires k < |Split(s, sep)|
    ensures forall c :: c in Split(s, sep)[k] ==> c in s
    decreases |s|
  {
    if sep in s {
      var i := IndexOf(s, sep);
      assert Split(s, sep) == [s[..i]] + Split(s[i + 1..], sep);
      if k == 0 {
        assert forall c :: c in s[..i] ==> c in s;
      } else {
        SplitPieceChars(s[i + 1..], sep, k - 1);
        assert forall c :: c in s[i + 1..] ==> c in s;
      }
    }
  }

  /** Trimming text made only of white space leaves nothing. */
  lemma AllSpaceTrimsToEmpty(s: string)
    requires forall c :: c in s ==> IsSpace(c)
    ensures TrimStart(s) == []
  {
  }

  /** A piece with no comma, taken from blank input, trims to nothing. */
  lemma BlankPiece(piece: string)
    requires ',' !in piece
    requires forall c :: c in piece ==> IsSpace(c) || c == ','
    ensures Trim(piece) == []
  {
    AllSpaceTrimsToEmpty(piece);
  }

  /** Input of only white space and commas, the empty input included, gives
      no technologies. */
  lemma BlankInputGivesNothing(s: string)
    requires forall c :: c in s ==> IsSpace(c) || c == ','
    ensures ParseTechStack(s) == []
  {
    var pieces := Split(s, ',');
    var trimmed := TrimmedPieces(s);
    forall i | 0 <= i < |trimmed| ensures !NonEmpty(trimmed[i]) {
      SplitPieceChars(s, ',', i);
      BlankPiece(pieces[i]);
    }
    FilterNone(trimmed, NonEmpty);
  }

  /** `handleSubmit`: the date and time inputs become one timestamp (`None`
      when they do not name a valid date, in which case converting it throws
      and nothing is posted); otherwise the body sent to `POST /api/events`. */
  function SubmitBody(form: FormData, dateTime: Option<int>): (r: Option<EventBody>)
    ensures r.None? <==> dateTime.None?
    ensures r.Some? ==>
      && r.value.title == Some(form.title)
      && r.value.description == Some(form.description)
      && r.value.location == Some(form.location)
      && r.value.date == dateTime
      && r.value.techStack == Some(ParseTechStack(form.techStack))
      && r.value.createdBy.None?
  {
    if dateTime.None? then None
    else Some(EventBody(Some(form.title), Some(form.description), Some(form.location),
                        dateTime, Some(ParseTechStack(form.techStack)), None))
  }

  /** A form with a valid date and non-empty title, description and location
      is accepted by the server, which stores those texts and the parsed
      tech stack verbatim. */
  lemma FilledFormIsCreated(form: FormData, dateTime: int, events: seq<Event>, next: nat, caller: Caller)
    requires form.title != "" && form.description != "" && form.location != ""
    ensures var body := SubmitBody(form, Some(dateTime)).value;
            var r := Create(events, next, caller, body);
            r.0.Success? && r.0.value == Event(next, form.title, form.description, form.location,
                                               dateTime, ParseTechStack(form.techStack), caller.id)
  {
  }

  /** Submitting the untouched initial form with a valid date creates the
      sample event with no technologies. */
  lemma InitialFormCreated(dateTime: int, events: seq<Event>, next: nat, caller: Caller)
    ensures var body := SubmitBody(InitialForm, Some(dateTime)).value;
            var r := Create(events, next, caller, body);
            r.0.Success? && r.0.value == Event(next, InitialForm.title, InitialForm.description,
                                               InitialForm.location, dateTime, [], caller.id)
  {
    FilledFormIsCreated(InitialForm, dateTime, events, next, caller);
    BlankInputGivesNothing(InitialForm.techStack);
  }
}
