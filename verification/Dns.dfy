/** DNS names with compression (section 4.1.4 of RFC 1035) and the message walk over them. */
module Dns {
  import opened Octets

  /** The decoder gives up on a name after this many steps (labels, pointers and the terminator alike). */
  const MAX_STEPS := 129

  function Pointer(b: Bytes, off: nat): nat
    requires off + 1 < |b| && b[off] >= 192
  {
    ((b[off] as int) - 192) * 256 + b[off + 1]
  }

  /** What the byte at `off` announces: the end of the name, a jump, a label, or bytes that are not there. */
  datatype Step = Terminator | Jump(target: nat) | Literal(bytes: Bytes) | Torn

  function ReadStep(b: Bytes, off: nat): (s: Step)
    ensures s.Literal? ==> 0 < |s.bytes| && off + 1 + |s.bytes| <= |b|
    ensures s.Terminator? ==> off < |b|
    ensures s.Jump? ==> off + 1 < |b|
  {
    if off >= |b| then Torn
    else if b[off] == 0 then Terminator
    else if b[off] >= 192 then
      if off + 1 >= |b| then Torn else Jump(Pointer(b, off))
    else if off + 1 + b[off] > |b| then Torn
    else Literal(b[off + 1..off + 1 + b[off]])
  }

  /** The labels decoded from `off` when `guard` steps are already spent. */
  function Labels(b: Bytes, off: nat, guard: nat): seq<Bytes>
    requires guard <= MAX_STEPS
    decreases MAX_STEPS - guard
  {
    if guard == MAX_STEPS then [] else
    match ReadStep(b, off)
    case Jump(target) => Labels(b, target, guard + 1)
    case Literal(l) => [l] + Labels(b, off + 1 + |l|, guard + 1)
    case _ => []
  }

  /** Where decoding resumes after the name at `off`: past its terminator or past its first pointer. */
  function NameEnd(b: Bytes, off: nat, guard: nat): (r: nat)
    requires guard <= MAX_STEPS
    ensures off <= r && (off <= |b| ==> r <= |b|)
    decreases MAX_STEPS - guard
  {
    if guard == MAX_STEPS then off else
    match ReadStep(b, off)
    case Terminator => off + 1
    case Jump(_) => off + 2
    case Literal(l) => NameEnd(b, off + 1 + |l|, guard + 1)
    case Torn => off
  }

  /** The decoding loop. It ends on every buffer, pointer cycles included, and never leaves the buffer. */
  method DecodeName(b: Bytes, start: nat) returns (labels: seq<Bytes>, nextOff: nat)
    ensures labels == Labels(b, start, 0) && nextOff == NameEnd(b, start, 0)
    ensures start <= nextOff && (start <= |b| ==> nextOff <= |b|)
  {
    hide ReadStep;
    labels := [];
    var off: nat, jumped, guard := start, false, 0;
    nextOff := start;
    while guard < MAX_STEPS
      invariant guard <= MAX_STEPS
      invariant labels + Labels(b, off, guard) == Labels(b, start, 0)
      invariant if jumped then nextOff == NameEnd(b, start, 0) else NameEnd(b, off, guard) == NameEnd(b, start, 0)
    {
      var step := ReadStep(b, off);
      guard := guard + 1;
      if step.Literal? {
        Snoc(labels, step.bytes, Labels(b, off + 1 + |step.bytes|, guard));
        labels := labels + [step.bytes];
        off := off + 1 + |step.bytes|;
      } else if step.Jump? {
        if !jumped {
          nextOff := off + 2;
        }
        jumped, off := true, step.target;
      } else {
        NoTail(labels);
        if !jumped {
          nextOff := if step.Terminator? then off + 1 else off;
        }
        return;
      }
    }
    NoTail(labels);
    if !jumped {
      nextOff := off;
    }
  }

  // ----- what a name means -----

  /** The decoder reads length bytes up to 191; RFC 1035 itself stops at 63. */
  type Label = l: Bytes | 0 < |l| < 192 witness [0]

  /** The name at `off` is `name`, read in exactly `steps` steps. */
  ghost predicate Spells(b: Bytes, off: nat, name: seq<Bytes>, steps: nat)
    decreases steps
  {
    && 0 < steps
    && match ReadStep(b, off)
       case Terminator => name == [] && steps == 1
       case Jump(target) => Spells(b, target, name, steps - 1)
       case Literal(l) => name != [] && name[0] == l && Spells(b, off + 1 + |l|, name[1..], steps - 1)
       case Torn => false
  }

  /** However many steps a name takes, what is decoded is a leading part of it. */
  lemma {:induction false} DecodedIsPrefix(b: Bytes, off: nat, name: seq<Bytes>, steps: nat, guard: nat)
    requires Spells(b, off, name, steps) && guard <= MAX_STEPS
    ensures Labels(b, off, guard) <= name
    decreases steps
  {
    hide ReadStep;
    if guard < MAX_STEPS {
      match ReadStep(b, off)
      case Terminator =>
      case Jump(target) =>
        DecodedIsPrefix(b, target, name, steps - 1, guard + 1);
      case Literal(l) =>
        DecodedIsPrefix(b, off + 1 + |l|, name[1..], steps - 1, guard + 1);
        assert name == [name[0]] + name[1..];
    }
  }

  /** The step at which the last label of a name is read; 0 if it has none. */
  ghost function LastLabelStep(b: Bytes, off: nat, name: seq<Bytes>, steps: nat): (k: nat)
    requires Spells(b, off, name, steps)
    ensures k < steps && (k == 0 <==> name == [])
    decreases steps
  {
    match ReadStep(b, off)
    case Terminator => 0
    case Jump(target) =>
      var k := LastLabelStep(b, target, name, steps - 1);
      if k == 0 then 0 else k + 1
    case Literal(l) => 1 + LastLabelStep(b, off + 1 + |l|, name[1..], steps - 1)
  }

  /**
   * For every spelled name, compressed or not: it is decoded if and only if its last label is read within the steps
   * that are left. The terminator need not be.
   */
  lemma {:induction false} DecodedIff(b: Bytes, off: nat, name: seq<Bytes>, steps: nat, guard: nat)
    requires Spells(b, off, name, steps) && guard <= MAX_STEPS
    ensures Labels(b, off, guard) == name <==> guard + LastLabelStep(b, off, name, steps) <= MAX_STEPS
    decreases steps
  {
    hide ReadStep;
    if guard < MAX_STEPS {
      match ReadStep(b, off)
      case Terminator =>
      case Jump(target) =>
        DecodedIff(b, target, name, steps - 1, guard + 1);
      case Literal(l) =>
        DecodedIff(b, off + 1 + |l|, name[1..], steps - 1, guard + 1);
        var rest := Labels(b, off + 1 + |l|, guard + 1);
        assert name == [l] + name[1..] && ([l] + rest)[1..] == rest;
    }
  }

  /** A buffer position spells at most one name: pointer cycles spell none, and the decoder still stops on them. */
  lemma {:induction false} SpellingUnique(b: Bytes, off: nat, n1: seq<Bytes>, k1: nat, n2: seq<Bytes>, k2: nat)
    requires Spells(b, off, n1, k1) && Spells(b, off, n2, k2)
    ensures n1 == n2 && k1 == k2
    decreases k1
  {
    hide ReadStep;
    match ReadStep(b, off)
    case Terminator =>
    case Jump(target) =>
      SpellingUnique(b, target, n1, k1 - 1, n2, k2 - 1);
    case Literal(l) =>
      SpellingUnique(b, off + 1 + |l|, n1[1..], k1 - 1, n2[1..], k2 - 1);
      assert n1 == [n1[0]] + n1[1..] && n2 == [n2[0]] + n2[1..];
  }

  function Encode(labels: seq<Label>): Bytes {
    if labels == [] then [] else [|labels[0]|] + labels[0] + Encode(labels[1..])
  }

  lemma EncodeSize(labels: seq<Label>)
    ensures |Encode(labels)| == if labels == [] then 0 else 1 + |labels[0]| + |Encode(labels[1..])|
  {
  }

  /** `b` holds the encoded labels, without a terminator, at `off`. */
  ghost predicate LabelsAt(b: Bytes, off: nat, labels: seq<Label>)
    decreases |labels|
  {
    if labels == [] then off <= |b|
    else ReadStep(b, off) == Literal(labels[0]) && LabelsAt(b, off + 1 + |labels[0]|, labels[1..])
  }

  lemma {:induction false} EncodedAt(pre: Bytes, labels: seq<Label>, tail: Bytes)
    ensures LabelsAt(pre + Encode(labels) + tail, |pre|, labels)
    decreases |labels|
  {
    if labels != [] {
      var head := [|labels[0]|] + labels[0];
      var b := pre + Encode(labels) + tail;
      assert b == (pre + head) + Encode(labels[1..]) + tail;
      EncodedAt(pre + head, labels[1..], tail);
      assert b[|pre|] == head[0] && b[|pre| + 1..|pre| + 1 + |labels[0]|] == labels[0];
    }
  }

  /** Literal labels followed by the spelling of the rest spell the whole. */
  lemma {:induction false} SpellsOn(b: Bytes, off: nat, labels: seq<Label>, rest: seq<Bytes>, steps: nat)
    requires LabelsAt(b, off, labels) && Spells(b, off + |Encode(labels)|, rest, steps)
    ensures Spells(b, off, labels + rest, |labels| + steps)
    ensures LastLabelStep(b, off, labels + rest, |labels| + steps) ==
            |labels| + LastLabelStep(b, off + |Encode(labels)|, rest, steps)
    decreases |labels|
  {
    hide ReadStep, Encode;
    EncodeSize(labels);
    if labels == [] {
      NoHead(rest);
    } else {
      SpellsOn(b, off + 1 + |labels[0]|, labels[1..], rest, steps);
      assert (labels + rest)[1..] == labels[1..] + rest;
    }
  }

  lemma {:induction false} EndPast(b: Bytes, off: nat, labels: seq<Label>, guard: nat)
    requires LabelsAt(b, off, labels) && guard + |labels| <= MAX_STEPS
    ensures NameEnd(b, off, guard) == NameEnd(b, off + |Encode(labels)|, guard + |labels|)
    decreases |labels|
  {
    hide ReadStep;
    if labels != [] {
      EndPast(b, off + 1 + |labels[0]|, labels[1..], guard + 1);
    }
  }

  /** A literal name of at most 128 labels decodes to its labels, and decoding resumes past its terminator. */
  lemma PlainName(b: Bytes, off: nat, labels: seq<Label>)
    requires LabelsAt(b, off, labels) && |labels| < MAX_STEPS
    requires off + |Encode(labels)| < |b| && b[off + |Encode(labels)|] == 0
    ensures Labels(b, off, 0) == labels && NameEnd(b, off, 0) == off + |Encode(labels)| + 1
  {
    var end := off + |Encode(labels)|;
    assert Spells(b, end, [], 1);
    SpellsOn(b, off, labels, [], 1);
    assert labels + [] == labels;
    DecodedIff(b, off, labels, |labels| + 1, 0);
    EndPast(b, off, labels, 0);
  }

  /** Beyond that the step guard cuts the name off: 129 labels and no terminator are consumed. */
  lemma LongName(b: Bytes, off: nat, labels: seq<Label>)
    requires LabelsAt(b, off, labels) && |labels| >= MAX_STEPS
    ensures Labels(b, off, 0) == labels[..MAX_STEPS]
    ensures NameEnd(b, off, 0) == off + |Encode(labels[..MAX_STEPS])|
  {
    hide ReadStep, Labels, LabelsAt, Encode;
    LabelsPrefix(b, off, labels, MAX_STEPS);
    EndPast(b, off, labels[..MAX_STEPS], 0);
    LongLabels(b, off, labels[..MAX_STEPS], 0);
  }

  lemma {:induction false} LabelsPrefix(b: Bytes, off: nat, labels: seq<Label>, k: nat)
    requires LabelsAt(b, off, labels) && k <= |labels|
    ensures LabelsAt(b, off, labels[..k])
    decreases k
  {
    hide ReadStep;
    if labels != [] && k > 0 {
      LabelsPrefix(b, off + 1 + |labels[0]|, labels[1..], k - 1);
      assert labels[..k][1..] == labels[1..][..k - 1];
    }
  }

  lemma {:induction false} LongLabels(b: Bytes, off: nat, labels: seq<Label>, guard: nat)
    requires LabelsAt(b, off, labels) && guard + |labels| == MAX_STEPS
    ensures Labels(b, off, guard) == labels
    decreases |labels|
  {
    hide ReadStep;
    if labels != [] {
      LongLabels(b, off + 1 + |labels[0]|, labels[1..], guard + 1);
      assert labels == [labels[0]] + labels[1..];
    }
  }

  /**
   * Compression preserves meaning: labels followed by a pointer to where `suffix` is spelled, itself compressed or
   * not, decode to the labels and then the suffix if and only if the last label is read within 129 steps, the pointer
   * being one of them; and decoding resumes just past the pointer if it is reached.
   */
  lemma CompressedName(b: Bytes, off: nat, labels: seq<Label>, suffix: seq<Bytes>, steps: nat)
    requires LabelsAt(b, off, labels)
    requires var p := off + |Encode(labels)|; p + 1 < |b| && b[p] >= 192 && Spells(b, Pointer(b, p), suffix, steps)
    ensures var k := LastLabelStep(b, Pointer(b, off + |Encode(labels)|), suffix, steps);
            Labels(b, off, 0) == labels + suffix <==> |labels| + (if k == 0 then 0 else k + 1) <= MAX_STEPS
    ensures |labels| < MAX_STEPS ==> NameEnd(b, off, 0) == off + |Encode(labels)| + 2
  {
    hide Labels, NameEnd, Encode, LabelsAt;
    var p := off + |Encode(labels)|;
    assert Spells(b, p, suffix, steps + 1);
    SpellsOn(b, off, labels, suffix, steps + 1);
    DecodedIff(b, off, labels + suffix, |labels| + steps + 1, 0);
    if |labels| < MAX_STEPS {
      EndPast(b, off, labels, 0);
      PointerEnds(b, p, |labels|);
    }
  }

  lemma PointerEnds(b: Bytes, p: nat, guard: nat)
    requires p + 1 < |b| && b[p] >= 192 && guard < MAX_STEPS
    ensures NameEnd(b, p, guard) == p + 2
  {
  }

  // ----- messages -----

  datatype Question = Question(name: seq<Bytes>, qtype: nat)

  datatype RData = NoData | Addr(bytes: Bytes) | Name(labels: seq<Bytes>)

  datatype Answer = Answer(name: seq<Bytes>, atype: nat, data: RData)

  datatype Message = Message(tid: nat, qr: nat, opcode: nat, rcode: nat,
                             questions: seq<Question>, answers: seq<Answer>)

  const MAX_QUESTIONS := 64
  const MAX_ANSWERS := 128

  /** One entry of a section: the item and where the next one starts, or where reading it stopped. */
  datatype Entry<T> = Got(item: T, next: nat) | Stopped(at: nat)

  function QuestionAt(b: Bytes, off: nat): Entry<Question> {
    var o := NameEnd(b, off, 0);
    if o + 4 > |b| then Stopped(o) else Got(Question(Labels(b, off, 0), At16(b, o)), o + 4)
  }

  function ReadData(b: Bytes, off: nat, atype: nat, rdlen: nat): RData
    requires off + rdlen <= |b|
  {
    if (atype == 1 && rdlen == 4) || (atype == 28 && rdlen == 16) then Addr(b[off..off + rdlen])
    else if atype == 5 || atype == 2 || atype == 12 then Name(Labels(b, off, 0))
    else NoData
  }

  function AnswerAt(b: Bytes, off: nat): Entry<Answer> {
    var o := NameEnd(b, off, 0);
    if o + 10 > |b| then Stopped(o) else
    var rdlen := At16(b, o + 8);
    if o + 10 + rdlen > |b| then Stopped(o + 10) else
    Got(Answer(Labels(b, off, 0), At16(b, o), ReadData(b, o + 10, At16(b, o), rdlen)), o + 10 + rdlen)
  }

  function Questions(b: Bytes, off: nat, n: nat): seq<Question>
    decreases n
  {
    if n == 0 then [] else
    match QuestionAt(b, off)
    case Got(q, next) => [q] + Questions(b, next, n - 1)
    case Stopped(_) => []
  }

  function QuestionsEnd(b: Bytes, off: nat, n: nat): nat
    decreases n
  {
    if n == 0 then off else
    match QuestionAt(b, off)
    case Got(_, next) => QuestionsEnd(b, next, n - 1)
    case Stopped(at) => at
  }

  function Answers(b: Bytes, off: nat, n: nat): seq<Answer>
    decreases n
  {
    if n == 0 then [] else
    match AnswerAt(b, off)
    case Got(a, next) => [a] + Answers(b, next, n - 1)
    case Stopped(_) => []
  }

  function Parsed(b: Bytes): Option<Message> {
    if |b| < 12 then None else
    var flags := At16(b, 2);
    var qd := Min(At16(b, 4), MAX_QUESTIONS);
    var an := if flags / 0x8000 % 2 == 1 then Min(At16(b, 6), MAX_ANSWERS) else 0;
    Some(Message(At16(b, 0), flags / 0x8000 % 2, flags / 0x800 % 16, flags % 16,
                 Questions(b, 12, qd), Answers(b, QuestionsEnd(b, 12, qd), an)))
  }

  method ParseDns(b: Bytes) returns (msg: Option<Message>)
    ensures msg == Parsed(b)
  {
    if |b| < 12 {
      return None;
    }
    var flags := At16(b, 2);
    var questions, off := ParseQuestions(b, 12, Min(At16(b, 4), MAX_QUESTIONS));
    var answers := [];
    if flags / 0x8000 % 2 == 1 {
      answers := ParseAnswers(b, off, Min(At16(b, 6), MAX_ANSWERS));
    }
    msg := Some(Message(At16(b, 0), flags / 0x8000 % 2, flags / 0x800 % 16, flags % 16, questions, answers));
  }

  method ParseQuestions(b: Bytes, start: nat, n: nat) returns (questions: seq<Question>, off: nat)
    ensures questions == Questions(b, start, n) && off == QuestionsEnd(b, start, n)
  {
    hide Labels, NameEnd;
    questions, off := [], start;
    for i := 0 to n
      invariant questions + Questions(b, off, n - i) == Questions(b, start, n)
      invariant QuestionsEnd(b, off, n - i) == QuestionsEnd(b, start, n)
    {
      ghost var entry := QuestionAt(b, off);
      var name, o := DecodeName(b, off);
      off := o;
      if off + 4 > |b| {
        NoTail(questions);
        return;
      }
      var q := Question(name, At16(b, off));
      off := off + 4;
      assert entry == Got(q, off);
      Snoc(questions, q, Questions(b, off, n - i - 1));
      questions := questions + [q];
    }
    NoTail(questions);
  }

  method ParseAnswers(b: Bytes, start: nat, n: nat) returns (answers: seq<Answer>)
    ensures answers == Answers(b, start, n)
  {
    hide AnswerAt, Labels, NameEnd;
    answers := [];
    var off := start;
    for i := 0 to n
      invariant answers + Answers(b, off, n - i) == Answers(b, start, n)
    {
      var entry := ParseAnswer(b, off);
      if entry.Stopped? {
        NoTail(answers);
        return;
      }
      Snoc(answers, entry.item, Answers(b, entry.next, n - i - 1));
      answers := answers + [entry.item];
      off := entry.next;
    }
    NoTail(answers);
  }

  method ParseAnswer(b: Bytes, start: nat) returns (entry: Entry<Answer>)
    ensures entry == AnswerAt(b, start)
  {
    hide Labels, NameEnd;
    var name, off := DecodeName(b, start);
    if off + 10 > |b| {
      return Stopped(off);
    }
    var atype, rdlen := At16(b, off), At16(b, off + 8);
    off := off + 10;
    if off + rdlen > |b| {
      return Stopped(off);
    }
    var data := NoData;
    if (atype == 1 && rdlen == 4) || (atype == 28 && rdlen == 16) {
      data := Addr(b[off..off + rdlen]);
    } else if atype == 5 || atype == 2 || atype == 12 {
      var labels, _ := DecodeName(b, off);
      data := Name(labels);
    }
    entry := Got(Answer(name, atype, data), off + rdlen);
  }

  // ----- names as written -----

  /** The UTF-8 form of a character (section 3 of RFC 3629). */
  function Utf8Char(c: char): (r: Bytes)
    ensures 0 < |r| && (|r| == 1 <==> (c as int) < 128)
  {
    var n := c as int;
    if n < 0x80 then [n]
    else if n < 0x800 then [0xC0 + n / 64, 0x80 + n % 64]
    else if n < 0x1_0000 then [0xE0 + n / 4096, 0x80 + n / 64 % 64, 0x80 + n % 64]
    else [0xF0 + n / 262144, 0x80 + n / 4096 % 64, 0x80 + n / 64 % 64, 0x80 + n % 64]
  }

  function Utf8(s: string): (r: Bytes)
    ensures |r| >= |s|
  {
    if s == "" then [] else Utf8Char(s[0]) + Utf8(s[1..])
  }

  predicate Ascii(s: string) {
    forall i :: 0 <= i < |s| ==> (s[i] as int) < 128
  }

  /** A text has as many bytes as characters if and only if it is ASCII. */
  lemma {:induction false} AsciiIff(s: string)
    ensures |Utf8(s)| == |s| <==> Ascii(s)
  {
    hide Utf8Char;
    if s != "" {
      AsciiIff(s[1..]);
      assert Ascii(s) <==> (s[0] as int) < 128 && Ascii(s[1..]) by {
        assert forall i :: 0 <= i < |s| - 1 ==> s[1..][i] == s[i + 1];
        assert Ascii(s[1..]) ==> forall i :: 1 <= i < |s| ==> s[i] == s[1..][i - 1];
      }
    }
  }

  /** All labels are non-empty and shorter than 192 bytes. */
  predicate Readable(labels: seq<Bytes>) {
    forall i :: 0 <= i < |labels| ==> 0 < |labels[i]| < 192
  }

  /** A label of a name as text; the builders fail on one of 256 characters or more. */
  type Text = s: string | |s| < 256

  /** As the builders write it: the number of characters, and then the bytes. */
  function WriteName(labels: seq<Text>): Bytes {
    if labels == [] then [] else [|labels[0]|] + Utf8(labels[0]) + WriteName(labels[1..])
  }

  function BytesOf(labels: seq<Text>): (r: seq<Bytes>)
    ensures |r| == |labels| && forall i :: 0 <= i < |labels| ==> r[i] == Utf8(labels[i])
  {
    seq(|labels|, i requires 0 <= i < |labels| => Utf8(labels[i]))
  }

  /** All labels are ASCII, and of 1 to 191 characters. */
  predicate Clear(labels: seq<Text>) {
    forall i :: 0 <= i < |labels| ==> Ascii(labels[i]) && 0 < |labels[i]| < 192
  }

  lemma ClearBytes(labels: seq<Text>)
    requires Clear(labels)
    ensures forall i :: 0 <= i < |labels| ==> |Utf8(labels[i])| == |labels[i]| && 0 < |Utf8(labels[i])| < 192
  {
    hide Ascii, Utf8;
    forall i | 0 <= i < |labels| {
      AsciiIff(labels[i]);
    }
  }

  /** Clear labels are written as the decoder reads them. */
  lemma {:induction false} WrittenIsEncoded(labels: seq<Text>)
    requires Clear(labels)
    ensures Readable(BytesOf(labels)) && WriteName(labels) == Encode(BytesOf(labels))
  {
    hide Ascii, Utf8;
    ClearBytes(labels);
    if labels != [] {
      WrittenIsEncoded(labels[1..]);
      assert BytesOf(labels)[1..] == BytesOf(labels[1..]);
    }
  }

  /** Whatever the bytes, the decoder returns readable labels, at most one for each step left. */
  lemma {:induction false} LabelsReadable(b: Bytes, off: nat, guard: nat)
    requires guard <= MAX_STEPS
    ensures Readable(Labels(b, off, guard)) && |Labels(b, off, guard)| <= MAX_STEPS - guard
    decreases MAX_STEPS - guard
  {
    hide ReadStep;
    if guard < MAX_STEPS {
      match ReadStep(b, off)
      case Jump(target) =>
        LabelsReadable(b, target, guard + 1);
      case Literal(l) =>
        LabelsReadable(b, off + 1 + |l|, guard + 1);
        assert |l| < 192 by { LiteralSize(b, off); }
      case _ =>
    }
  }

  lemma LiteralSize(b: Bytes, off: nat)
    ensures ReadStep(b, off).Literal? ==> |ReadStep(b, off).bytes| < 192
  {
  }

  /** What the first written label is read as, if its bytes are few enough. */
  lemma FirstWritten(pre: Bytes, l: Text, tail: Bytes)
    requires |Utf8(l)| < 192
    ensures ReadStep(pre + ([|l|] + Utf8(l)) + tail, |pre|) ==
            if l == "" then Terminator else Literal(Utf8(l)[..|l|])
  {
    hide Utf8;
    var b := pre + ([|l|] + Utf8(l)) + tail;
    assert b[|pre|] == |l|;
    assert b[|pre| + 1..|pre| + 1 + |l|] == Utf8(l)[..|l|];
  }

  /** If a written name is decoded to its own bytes, its labels are clear. */
  lemma {:induction false} DecodedIsClear(pre: Bytes, labels: seq<Text>, tail: Bytes, guard: nat)
    requires guard <= MAX_STEPS
    requires Labels(pre + WriteName(labels) + tail, |pre|, guard) == BytesOf(labels)
    ensures Clear(labels)
    decreases |labels|
  {
    hide ReadStep, Utf8, Ascii;
    if labels != [] {
      var b := pre + WriteName(labels) + tail;
      var l, head := labels[0], [|labels[0]|] + Utf8(labels[0]);
      assert b == pre + head + (WriteName(labels[1..]) + tail);
      LabelsReadable(b, |pre|, guard);
      assert BytesOf(labels)[0] == Utf8(l);
      FirstWritten(pre, l, WriteName(labels[1..]) + tail);
      assert Utf8(l)[..|l|] == Utf8(l);
      AsciiIff(l);
      assert b == (pre + head) + WriteName(labels[1..]) + tail;
      assert Labels(b, |pre| + |head|, guard + 1) == BytesOf(labels)[1..] == BytesOf(labels[1..]);
      DecodedIsClear(pre + head, labels[1..], tail, guard + 1);
      assert forall i :: 1 <= i < |labels| ==> labels[i] == labels[1..][i - 1];
    }
  }

  // ----- messages as built -----

  const QUERY_HEADER: Bytes := [0x12, 0x34, 0x01, 0x00, 0, 1, 0, 0, 0, 0, 0, 0]

  /** A name, its terminator, type A and class IN. */
  function QuestionBytes(labels: seq<Text>): Bytes {
    WriteName(labels) + [0, 0, 1, 0, 1]
  }

  function BuildQuery(labels: seq<Text>): Bytes {
    QUERY_HEADER + QuestionBytes(labels)
  }

  lemma QuestionParts(pre: Bytes, labels: seq<Text>, tail: Bytes)
    requires Clear(labels)
    ensures Readable(BytesOf(labels))
    ensures var b, o := pre + QuestionBytes(labels) + tail, |pre| + |Encode(BytesOf(labels))|;
            && LabelsAt(b, |pre|, BytesOf(labels)) && o + 5 <= |b| && o == |pre| + |QuestionBytes(labels)| - 5
            && b[o] == 0 && b[o + 1] == 0 && b[o + 2] == 1
  {
    hide WriteName, Encode, LabelsAt, Clear, BytesOf;
    WrittenIsEncoded(labels);
    var b, o := pre + QuestionBytes(labels) + tail, |pre| + |Encode(BytesOf(labels))|;
    var rest := [0, 0, 1, 0, 1] + tail;
    assert b == pre + Encode(BytesOf(labels)) + rest;
    EncodedAt(pre, BytesOf(labels), rest);
    assert b[o..o + 5] == [0, 0, 1, 0, 1];
    assert b[o] == b[o..o + 5][0] && b[o + 1] == b[o..o + 5][1] && b[o + 2] == b[o..o + 5][2];
  }

  /** A question for an A record, with a clear name of at most 128 labels, wherever it stands in the message. */
  lemma QuestionRead(pre: Bytes, labels: seq<Text>, tail: Bytes)
    requires Clear(labels) && |labels| < MAX_STEPS
    ensures QuestionAt(pre + QuestionBytes(labels) + tail, |pre|) ==
            Got(Question(BytesOf(labels), 1), |pre| + |QuestionBytes(labels)|)
  {
    hide ReadStep, Labels, NameEnd, Encode, LabelsAt, WriteName, QuestionBytes, Clear;
    QuestionParts(pre, labels, tail);
    PlainName(pre + QuestionBytes(labels) + tail, |pre|, BytesOf(labels));
  }

  /** With 129 labels the terminator is left over, and is read as part of the question's type. */
  lemma QuestionTooLong(pre: Bytes, labels: seq<Text>, tail: Bytes)
    requires Clear(labels) && |labels| == MAX_STEPS
    ensures QuestionAt(pre + QuestionBytes(labels) + tail, |pre|) ==
            Got(Question(BytesOf(labels), 0), |pre| + |QuestionBytes(labels)| - 1)
  {
    hide ReadStep, Labels, NameEnd, Encode, LabelsAt, WriteName, QuestionBytes, Clear;
    QuestionParts(pre, labels, tail);
    LongName(pre + QuestionBytes(labels) + tail, |pre|, BytesOf(labels));
    assert BytesOf(labels)[..MAX_STEPS] == BytesOf(labels);
  }

  /** A written question is read back if and only if its labels are clear and at most 128. */
  lemma QuestionIff(pre: Bytes, labels: seq<Text>, tail: Bytes)
    ensures var e := QuestionAt(pre + QuestionBytes(labels) + tail, |pre|);
            e.Got? && e.item == Question(BytesOf(labels), 1) <==> Clear(labels) && |labels| < MAX_STEPS
  {
    hide Labels, NameEnd, QuestionBytes, QuestionAt, Clear, BytesOf;
    var b := pre + QuestionBytes(labels) + tail;
    if Clear(labels) && |labels| < MAX_STEPS {
      QuestionRead(pre, labels, tail);
    } else if Clear(labels) && |labels| == MAX_STEPS {
      QuestionTooLong(pre, labels, tail);
    } else {
      NamedByLabels(b, |pre|);
      LabelsReadable(b, |pre|, 0);
      if Labels(b, |pre|, 0) == BytesOf(labels) {
        assert b == pre + WriteName(labels) + ([0, 0, 1, 0, 1] + tail) by { QuestionIs(pre, labels, tail); }
        DecodedIsClear(pre, labels, [0, 0, 1, 0, 1] + tail, 0);
      }
    }
  }

  lemma QuestionIs(pre: Bytes, labels: seq<Text>, tail: Bytes)
    ensures pre + QuestionBytes(labels) + tail == pre + WriteName(labels) + ([0, 0, 1, 0, 1] + tail)
  {
    hide WriteName;
  }

  lemma NamedByLabels(b: Bytes, off: nat)
    ensures QuestionAt(b, off).Got? ==> QuestionAt(b, off).item.name == Labels(b, off, 0)
  {
  }

  lemma FirstQuestion(b: Bytes)
    ensures Questions(b, 12, 1) == if QuestionAt(b, 12).Got? then [QuestionAt(b, 12).item] else []
  {
    hide QuestionAt;
  }

  lemma QueryShape(labels: seq<Text>)
    ensures var b := BuildQuery(labels); Parsed(b) == Some(Message(0x1234, 0, 0, 0, Questions(b, 12, 1), []))
  {
    hide Questions, QuestionBytes, QuestionsEnd;
    var b := BuildQuery(labels);
    assert b[..12] == QUERY_HEADER && At16(b, 0) == 0x1234 && At16(b, 2) == 0x100 && At16(b, 4) == 1;
  }

  /**
   * For every name the builder can write: the query parses to that one question if and only if every label is ASCII
   * and of 1 to 191 characters, and there are at most 128 of them.
   */
  lemma QueryRoundTrip(labels: seq<Text>)
    ensures Parsed(BuildQuery(labels)) == Some(Message(0x1234, 0, 0, 0, [Question(BytesOf(labels), 1)], [])) <==>
            Clear(labels) && |labels| < MAX_STEPS
  {
    hide QuestionBytes, QuestionAt, Parsed, Clear, BytesOf, Questions;
    var b := BuildQuery(labels);
    QueryShape(labels);
    FirstQuestion(b);
    NoTail(b);
    QuestionIff(QUERY_HEADER, labels, []);
  }

  /** The name "é": one character is announced, two bytes follow, and only the first of them comes back. */
  lemma AccentIsCut()
    ensures var labels: seq<Text> := ["\U{00E9}"];
            var b := BuildQuery(labels);
            && Labels(b, 12, 0) == [[0xC3]] && BytesOf(labels) == [[0xC3, 0xA9]]
            && Parsed(b) != Some(Message(0x1234, 0, 0, 0, [Question(BytesOf(labels), 1)], []))
  {
    var l: Text := "\U{00E9}";
    var b := BuildQuery([l]);
    assert l[1..] == "" && Utf8(l) == Utf8Char(l[0]) + Utf8("") && Utf8(l) == [0xC3, 0xA9];
    assert [l][1..] == [] && WriteName([l]) == [1] + Utf8(l) + WriteName([]);
    assert b[12..15] == [1, 0xC3, 0xA9] && b[12] == 1 && b[13] == 0xC3 && b[14] == 0xA9 && |b| == 20;
    assert ReadStep(b, 12) == Literal(b[13..14]) && b[13..14] == [0xC3];
    assert ReadStep(b, 14) == Torn;
    assert !Ascii([l][0]) by { assert (l[0] as int) >= 128; }
    QueryRoundTrip([l]);
  }

  /** An A record whose name is a pointer to the question's name at offset 12. */
  function AnswerBytes(a: Address4): (r: Bytes)
    ensures |r| == 16
  {
    [0xC0, 12, 0, 1, 0, 1, 0, 0, 1, 44, 0, 4] + a
  }

  function AnswersBytes(addrs: seq<Address4>): (r: Bytes)
    ensures |r| == 16 * |addrs|
  {
    if addrs == [] then [] else AnswerBytes(addrs[0]) + AnswersBytes(addrs[1..])
  }

  function ResponseHeader(n: nat): (r: Bytes)
    requires n < 0x1_0000
    ensures |r| == 12
  {
    [0x12, 0x34, 0x81, 0x80, 0, 1] + U16(n) + [0, 0, 0, 0]
  }

  function BuildResponse(labels: seq<Text>, addrs: seq<Address4>): Bytes
    requires |addrs| < 0x1_0000
  {
    ResponseHeader(|addrs|) + QuestionBytes(labels) + AnswersBytes(addrs)
  }

  function AddressAnswers(labels: seq<Bytes>, addrs: seq<Address4>): (r: seq<Answer>)
    ensures |r| == |addrs| && forall i :: 0 <= i < |addrs| ==> r[i] == Answer(labels, 1, Addr(addrs[i]))
  {
    seq(|addrs|, i requires 0 <= i < |addrs| => Answer(labels, 1, Addr(addrs[i])))
  }

  /** `b` spells `name` at offset 12, and a pointer to it still reaches the last label. */
  ghost predicate Named(b: Bytes, name: seq<Bytes>) {
    Spells(b, 12, name, |name| + 1) && |name| < MAX_STEPS
  }

  lemma AnswerRead(b: Bytes, off: nat, name: seq<Bytes>, a: Address4)
    requires off + 16 <= |b| && b[off..off + 16] == AnswerBytes(a) && Named(b, name)
    ensures AnswerAt(b, off) == Got(Answer(name, 1, Addr(a)), off + 16)
  {
    hide Labels, NameEnd, Named;
    var r := b[off..off + 16];
    assert b[off] == r[0] == 0xC0 && b[off + 1] == r[1] == 12;
    assert b[off + 2] == r[2] == 0 && b[off + 3] == r[3] == 1;
    assert b[off + 10] == r[10] == 0 && b[off + 11] == r[11] == 4;
    assert b[off + 12..off + 16] == r[12..] == a;
    PointerOnly(b, off, name);
  }

  lemma PointerOnly(b: Bytes, off: nat, name: seq<Bytes>)
    requires off + 1 < |b| && b[off] == 0xC0 && b[off + 1] == 12 && Named(b, name)
    ensures Labels(b, off, 0) == name && NameEnd(b, off, 0) == off + 2
  {
    hide Labels, NameEnd, Spells, LastLabelStep;
    CompressedName(b, off, [], name, |name| + 1);
    NoHead(name);
  }

  lemma {:induction false} AnswersRead(pre: Bytes, name: seq<Bytes>, addrs: seq<Address4>, n: nat)
    requires Named(pre + AnswersBytes(addrs), name) && n <= |addrs|
    ensures Answers(pre + AnswersBytes(addrs), |pre|, n) == AddressAnswers(name, addrs[..n])
    decreases n
  {
    hide Named, AnswerAt;
    var b := pre + AnswersBytes(addrs);
    if n > 0 {
      var pre' := pre + AnswerBytes(addrs[0]);
      assert b == pre' + AnswersBytes(addrs[1..]);
      assert b[|pre|..|pre| + 16] == AnswerBytes(addrs[0]);
      AnswerRead(b, |pre|, name, addrs[0]);
      AnswersRead(pre', name, addrs[1..], n - 1);
      assert addrs[..n][1..] == addrs[1..][..n - 1];
      var rest := AddressAnswers(name, addrs[1..][..n - 1]);
      assert AddressAnswers(name, addrs[..n]) == [Answer(name, 1, Addr(addrs[0]))] + rest;
    }
  }

  lemma ResponseShape(labels: seq<Text>, addrs: seq<Address4>)
    requires |addrs| < 0x1_0000
    ensures var b := BuildResponse(labels, addrs);
            Parsed(b) == Some(Message(0x1234, 1, 0, 0, Questions(b, 12, 1),
                                      Answers(b, QuestionsEnd(b, 12, 1), Min(|addrs|, MAX_ANSWERS))))
  {
    hide QuestionBytes, AnswersBytes, Questions, QuestionsEnd, Answers;
    var b, h := BuildResponse(labels, addrs), ResponseHeader(|addrs|);
    assert b[..12] == h && h[..6] == [0x12, 0x34, 0x81, 0x80, 0, 1];
    assert h[6..8] == U16(|addrs|) && At16(b, 6) == At16(h[6..8], 0);
    assert At16(b, 0) == 0x1234 && At16(b, 2) == 0x8180 && At16(b, 4) == 1;
  }

  lemma QuestionSpelled(pre: Bytes, labels: seq<Text>, tail: Bytes)
    requires |pre| == 12 && Clear(labels) && |labels| < MAX_STEPS
    ensures Named(pre + QuestionBytes(labels) + tail, BytesOf(labels))
  {
    hide Encode, LabelsAt, QuestionBytes, Clear, BytesOf, LastLabelStep;
    QuestionParts(pre, labels, tail);
    SpellsOn(pre + QuestionBytes(labels) + tail, 12, BytesOf(labels), [], 1);
    NoTail(BytesOf(labels));
  }

  lemma AnswersAsBuilt(labels: seq<Text>, addrs: seq<Address4>)
    requires |addrs| < 0x1_0000 && Clear(labels) && |labels| < MAX_STEPS
    ensures var b, n := BuildResponse(labels, addrs), Min(|addrs|, MAX_ANSWERS);
            Answers(b, QuestionsEnd(b, 12, 1), n) == AddressAnswers(BytesOf(labels), addrs[..n])
  {
    hide QuestionBytes, AnswersBytes, QuestionAt, Answers, Clear, BytesOf, ResponseHeader, Named;
    var h, q, tail := ResponseHeader(|addrs|), QuestionBytes(labels), AnswersBytes(addrs);
    QuestionRead(h, labels, tail);
    QuestionSpelled(h, labels, tail);
    AnswersRead(h + q, BytesOf(labels), addrs, Min(|addrs|, MAX_ANSWERS));
    assert QuestionsEnd(h + q + tail, 12, 1) == |h + q|;
  }

  /**
   * A response as the self-test builds it, generalised to any name and any number of address records: it parses to the
   * question and the first 128 addresses, each under the question's name, if and only if every label is ASCII and of
   * 1 to 191 characters, and there are at most 128 of them.
   */
  lemma ResponseRoundTrip(labels: seq<Text>, addrs: seq<Address4>)
    requires |addrs| < 0x1_0000
    ensures var name, kept := BytesOf(labels), addrs[..Min(|addrs|, MAX_ANSWERS)];
            Parsed(BuildResponse(labels, addrs)) ==
            Some(Message(0x1234, 1, 0, 0, [Question(name, 1)], AddressAnswers(name, kept))) <==>
            Clear(labels) && |labels| < MAX_STEPS
  {
    hide QuestionBytes, AnswersBytes, QuestionAt, Answers, Clear, BytesOf, Questions, QuestionsEnd, ResponseHeader,
         Parsed;
    var b := BuildResponse(labels, addrs);
    ResponseShape(labels, addrs);
    FirstQuestion(b);
    QuestionIff(ResponseHeader(|addrs|), labels, AnswersBytes(addrs));
    if Clear(labels) && |labels| < MAX_STEPS {
      AnswersAsBuilt(labels, addrs);
    }
  }
}
