/**
 What a read of the record layer takes off the link, and that it makes progress.
 */
module RecordTaking {
  import opened Words
  import opened RecordHeader
  import opened Records
  import opened RecordChannel

  // ---- What a read takes off the link ----

  ghost function LeadPart(h: Hist, h': Hist): seq<byte> {
    if h'.lead == h.lead then [] else h.lead
  }

  ghost function RecordPart(s: Suite, h: Hist, h': Hist): seq<byte>
    requires Chunks(h.pending)
  {
    if h'.pending == h.pending || h.pending == [] then [] else Record(s, h.base, h.pending[0])
  }

  /** A read takes whole units: the lead or none of it, and a whole record or none of it. */
  ghost predicate Took(s: Suite, l: Link, h: Hist, l': Link, h': Hist)
    requires Chunks(h.pending)
  {
    && l.flight == LeadPart(h, h') + RecordPart(s, h, h') + l'.flight
    && (h'.lead == h.lead || h'.lead == [])
    && (h'.pending == h.pending || (h.pending != [] && h'.pending == h.pending[1..] && h'.lead == []))
  }

  lemma TookNothing(s: Suite, l: Link, h: Hist, l': Link, h': Hist)
    requires Chunks(h.pending) && l'.flight == l.flight && h'.lead == h.lead && h'.pending == h.pending
    ensures Took(s, l, h, l', h')
  {
    assert [] + [] + l.flight == l.flight;
  }

  lemma TookLeadThen(s: Suite, l: Link, h: Hist, l1: Link, l': Link, h': Hist)
    requires Chunks(h.pending) && l.flight == h.lead + l1.flight && Took(s, l1, h.(lead := []), l', h')
    ensures Took(s, l, h, l', h')
  {
    hide Record;
    var r := RecordPart(s, h, h');
    assert l1.flight == [] + r + l'.flight;
    assert [] + r + l'.flight == r + l'.flight;
    assert h.lead + (r + l'.flight) == h.lead + r + l'.flight;
  }

  lemma ArrivedTakes(s: Suite, l: Link, h: Hist, n: nat, avail: nat)
    requires Lawful(s) && InStep(s, l, h) && avail <= |l.flight|
    ensures h.base.Valid() && Chunks(h.pending) && (l.rx.Some? ==> l.rx.value.Valid())
    ensures Took(s, l, h, Arrived(s, l, n, avail).1, HistAfter(s, l, h, n, avail))
  {
    hide InStep;
    hide Lawful;
    hide AfterRandom;
    hide RandomHist;
    hide Took;
    StepValid(s, l, h);
    var l', h' := Arrived(s, l, n, avail).1, HistAfter(s, l, h, n, avail);
    if n != 0 && TakeRandom(s, l, avail).Ahead? {
      RandomKeepsStep(s, l, h, avail);
      var l1 := TakeRandom(s, l, avail).l;
      var h1 := if l.rx.Some? then h else h.(lead := []);
      RandomTakes(s, l1, h1, n, avail - (|l.flight| - |l1.flight|));
      if l.rx.None? {
        RandomIsLead(s, l, h, avail);
        TookLeadThen(s, l, h, l1, l', h');
      }
    } else {
      TookNothing(s, l, h, l', h');
    }
  }

  /** Until the server's random bytes have been read the history stands still. */
  lemma RandomPending(s: Suite, l: Link, h: Hist, n: nat, avail: nat)
    requires InStep(s, l, h) && avail <= |l.flight|
    ensures h.base.Valid() && Chunks(h.pending) && (l.rx.Some? ==> l.rx.value.Valid())
    ensures Arrived(s, l, n, avail).1.rx.None? ==> HistAfter(s, l, h, n, avail) == h && l.rx.None?
  {
    hide InStep;
    hide AfterRandom;
    hide RandomHist;
    StepValid(s, l, h);
  }

  lemma RandomIsLead(s: Suite, l: Link, h: Hist, avail: nat)
    requires InStep(s, l, h) && 16 <= avail <= |l.flight| && l.rx.None?
    ensures l.flight == h.lead + l.flight[16..]
  {
    DropLead(s, l, h);
    assert l.flight == l.flight[..16] + l.flight[16..];
  }

  lemma RandomTakes(s: Suite, l: Link, h: Hist, n: nat, avail: nat)
    requires Lawful(s) && InStep(s, l, h) && avail <= |l.flight| && l.rx.Some?
    ensures h.base.Valid() && Chunks(h.pending) && l.rx.value.Valid()
    ensures Took(s, l, h, AfterRandom(s, l, n, avail).1, RandomHist(s, l, h, n, avail))
  {
    hide InStep;
    hide Lawful;
    hide AfterLead;
    hide LeadHist;
    hide Took;
    StepValid(s, l, h);
    var l', h' := AfterRandom(s, l, n, avail).1, RandomHist(s, l, h, n, avail);
    PaddingKeepsStep(s, l, h, avail);
    if TakePadding(s, l, avail).Ahead? {
      var l1 := TakePadding(s, l, avail).l;
      var h1 := if l.padding == 0 then h else h.(lead := []);
      LeadTakes(s, l1, h1, n, avail - (|l.flight| - |l1.flight|));
      if l.padding > 0 {
        PaddingIsLead(s, l, h, avail);
        TookLeadThen(s, l, h, l1, l', h');
      }
    } else {
      TookNothing(s, l, h, l', h');
    }
  }

  lemma PaddingIsLead(s: Suite, l: Link, h: Hist, avail: nat)
    requires InStep(s, l, h) && l.rx.Some? && 0 < l.padding <= avail <= |l.flight|
    ensures l.flight == h.lead + l.flight[l.padding..]
  {
    DropLead(s, l, h);
    assert l.flight == l.flight[..l.padding] + l.flight[l.padding..];
  }

  lemma LeadTakes(s: Suite, l: Link, h: Hist, n: nat, avail: nat)
    requires Lawful(s) && InStep(s, l, h) && avail <= |l.flight| && l.rx.Some? && l.padding == 0
    ensures h.base.Valid() && Chunks(h.pending) && l.rx.value.Valid()
    ensures Took(s, l, h, AfterLead(s, l, n, avail).1, LeadHist(s, l, h, n, avail))
  {
    hide InStep;
    hide Lawful;
    hide TakeRecord;
    hide Took;
    StepValid(s, l, h);
    var l', h' := AfterLead(s, l, n, avail).1, LeadHist(s, l, h, n, avail);
    if |l.input| == 0 {
      RecordKeepsStep(s, l, h, n, avail);
      if TakeRecord(s, l, n, avail).0.Got? {
        RecordTaken(s, l, h, n, avail);
        return;
      }
    }
    TookNothing(s, l, h, l', h');
  }

  lemma RecordTaken(s: Suite, l: Link, h: Hist, n: nat, avail: nat)
    requires Lawful(s) && InStep(s, l, h) && avail <= |l.flight| && l.rx.Some? && l.padding == 0 && l.input == []
    requires l.rx.value.Valid() && TakeRecord(s, l, n, avail).0.Got?
    ensures h.base.Valid() && Chunks(h.pending)
    ensures Took(s, l, h, AfterLead(s, l, n, avail).1, LeadHist(s, l, h, n, avail))
  {
    hide InStep;
    hide Lawful;
    hide Record;
    hide AfterRecord;
    hide TakeRecord;
    StepValid(s, l, h);
    RecordBytes(s, l, h, n, avail);
    NoLead(s, l, h);
    var r := Record(s, h.base, h.pending[0]);
    assert [] + r == r;
  }

  lemma RecordBytes(s: Suite, l: Link, h: Hist, n: nat, avail: nat)
    requires Lawful(s) && InStep(s, l, h) && avail <= |l.flight| && l.rx.Some? && l.padding == 0 && l.input == []
    requires l.rx.value.Valid() && TakeRecord(s, l, n, avail).0.Got?
    ensures Chunks(h.pending) && h.pending != []
    ensures l.flight == Record(s, h.base, h.pending[0]) + TakeRecord(s, l, n, avail).1.flight
  {
    hide InStep;
    hide Lawful;
    hide Wire;
    hide Record;
    hide AfterRecord;
    hide DecodeHeader;
    hide EncodeHeader;
    StepValid(s, l, h);
    PendingHeader(s, l, h);
    var k := HEADER_LEN + |h.pending[0]| + 16;
    assert k <= avail;
    FirstRecord(s, h.base, h.pending, l.flight);
    TakeRecordIs(s, l, n, avail, h.pending[0]);
    hide TakeRecord;
    assert l.flight[..HEADER_LEN] + l.flight[HEADER_LEN..k] == l.flight[..k];
    assert l.flight == l.flight[..k] + l.flight[k..];
  }

  lemma NoLead(s: Suite, l: Link, h: Hist)
    requires InStep(s, l, h) && l.rx.Some? && l.padding == 0
    ensures h.lead == []
  {
  }

  // ---- Progress ----

  /** Everything sent has arrived and something of it has not been read. */
  ghost predicate HasNews(l: Link, h: Hist) {
    !l.dead && l.preWrite == [] && (l.input != [] || h.pending != [])
  }

  /** On a live link that is so exactly when not all that was written has been read. */
  lemma NewsIffUnread(s: Suite, l: Link, h: Hist)
    requires InStep(s, l, h) && !l.dead
    ensures HasNews(l, h) <==> h.delivered != h.written
  {
    hide Wire;
    hide Advance;
    assert h.pending != [] ==> |h.pending[0]| >= 1;
  }

  /** A read with a buffer then returns at least one byte: the reader does not wait for more than the
      next record. */
  lemma ReceiveDelivers(s: Suite, l: Link, h: Hist, n: nat, broken: bool)
    requires Lawful(s) && InStep(s, l, h) && HasNews(l, h) && n > 0
    ensures var r := Receive(s, l, n, |l.flight|, broken).0; r.Got? && |r.bytes| >= 1
  {
    ArrivedDelivers(s, l, h, n);
    hide Arrived;
  }

  lemma ArrivedDelivers(s: Suite, l: Link, h: Hist, n: nat)
    requires Lawful(s) && InStep(s, l, h) && HasNews(l, h) && n > 0
    ensures l.rx.Some? ==> l.rx.value.Valid()
    ensures var r := Arrived(s, l, n, |l.flight|).0; r.Got? && |r.bytes| >= 1
  {
    hide InStep;
    hide Lawful;
    hide AfterRandom;
    StepValid(s, l, h);
    LeadArrived(s, l, h);
    RandomKeepsStep(s, l, h, |l.flight|);
    var l1 := TakeRandom(s, l, |l.flight|).l;
    RandomDelivers(s, l1, if l.rx.Some? then h else h.(lead := []), n);
  }

  lemma RandomDelivers(s: Suite, l: Link, h: Hist, n: nat)
    requires Lawful(s) && InStep(s, l, h) && HasNews(l, h) && n > 0 && l.rx.Some?
    ensures l.rx.value.Valid()
    ensures var r := AfterRandom(s, l, n, |l.flight|).0; r.Got? && |r.bytes| >= 1
  {
    hide InStep;
    hide Lawful;
    hide TakeRecord;
    StepValid(s, l, h);
    LeadArrived(s, l, h);
    PaddingKeepsStep(s, l, h, |l.flight|);
    var l1 := TakePadding(s, l, |l.flight|).l;
    var h1 := if l.padding == 0 then h else h.(lead := []);
    if l1.input == [] {
      RecordThere(s, l1, h1);
      RecordArrives(s, l1, h1, n, |l1.flight|);
    }
  }

  lemma LeadArrived(s: Suite, l: Link, h: Hist)
    requires InStep(s, l, h) && HasNews(l, h)
    ensures |h.lead| <= |l.flight| && (l.rx.None? ==> |l.flight| >= 16 && l.input == [])
    ensures l.rx.Some? ==> |l.flight| >= l.padding
  {
    hide Wire;
  }

  lemma RecordThere(s: Suite, l: Link, h: Hist)
    requires Lawful(s) && InStep(s, l, h) && HasNews(l, h) && l.rx.Some? && l.padding == 0 && l.input == []
    ensures h.pending != [] && |l.flight| >= HEADER_LEN + |h.pending[0]| + 16
  {
  }
}
