/**
 * The field report form used on site: picking a building, floor and room,
 * recording a divergence (sent at once when online, queued when offline),
 * and sending the offline queue later.
 */
module FieldReport {
  import opened Common
  import opened Records
  import opened Ordering

  // ---------------------------------------------------------------------
  // Floor and room pickers
  // ---------------------------------------------------------------------

  /** `Array.from(new Set(s))`: the first occurrence of each value, in order. */
  function Dedup(s: seq<string>): (r: seq<string>)
    ensures forall x :: x in r <==> x in s
    ensures forall i, j :: 0 <= i < j < |r| ==> r[i] != r[j]
  {
    if |s| == 0 then []
    else
      var d := Dedup(s[..|s| - 1]);
      var last := s[|s| - 1];
      assert forall x :: x in s <==> x in s[..|s| - 1] || x == last by {
        SplitLast(s);
      }
      if last in d then d else d + [last]
  }

  function FloorsOf(salas: seq<Sala>): (r: seq<string>)
    ensures |r| == |salas|
    ensures forall k :: 0 <= k < |salas| ==> r[k] == salas[k].pavimento
  {
    seq(|salas|, k requires 0 <= k < |salas| => salas[k].pavimento)
  }

  /** The floors offered for the selected building, in the order of `Array.prototype.sort()` with no comparator, taken here as code-point order. */
  function Pavimentos(salas: seq<Sala>, edificacao: string): seq<string>
  {
    SortBy(Dedup(FloorsOf(Filter(salas, (s: Sala) => s.edificacao == edificacao))),
           (p: string) => Key(0, 0, p))
  }

  /** Two equal elements at different positions count twice. */
  lemma TwoPositions<T>(s: seq<T>, i: nat, j: nat)
    requires i < j < |s| && s[i] == s[j]
    ensures multiset(s)[s[i]] >= 2
  {
    assert s == s[..i] + [s[i]] + s[i + 1..j] + [s[j]] + s[j + 1..];
  }

  /**
   * The floor list holds each floor of a room of the building exactly once,
   * and nothing else, in strictly increasing order.
   */
  lemma PavimentosCorrect(salas: seq<Sala>, edificacao: string)
    ensures forall p :: p in Pavimentos(salas, edificacao) <==>
      exists s :: s in salas && s.edificacao == edificacao && s.pavimento == p
    ensures forall i, j :: 0 <= i < j < |Pavimentos(salas, edificacao)| ==>
      StrLt(Pavimentos(salas, edificacao)[i], Pavimentos(salas, edificacao)[j])
  {
    var inBuilding := Filter(salas, (s: Sala) => s.edificacao == edificacao);
    var floors := FloorsOf(inBuilding);
    var d := Dedup(floors);
    var key := (p: string) => Key(0, 0, p);
    var r := Pavimentos(salas, edificacao);
    SortByCorrect(d, key);
    forall p ensures p in r <==> exists s :: s in salas && s.edificacao == edificacao && s.pavimento == p {
      assert p in r <==> p in multiset(r);
      assert p in d <==> p in multiset(d);
      if p in floors {
        var k :| 0 <= k < |floors| && floors[k] == p;
        assert inBuilding[k] in inBuilding;
      }
      if exists s :: s in salas && s.edificacao == edificacao && s.pavimento == p {
        var s :| s in salas && s.edificacao == edificacao && s.pavimento == p;
        assert s in inBuilding;
        var k :| 0 <= k < |inBuilding| && inBuilding[k] == s;
        assert floors[k] == p;
      }
    }
    DedupOnce(d);
    forall i, j | 0 <= i < j < |r| ensures StrLt(r[i], r[j]) {
      if r[i] == r[j] {
        TwoPositions(r, i, j);
        assert false;
      }
      StrLtTotal(r[i], r[j]);
      assert KeyLe(key(r[i]), key(r[j]));
    }
  }

  lemma DedupOnce(d: seq<string>)
    requires forall i, j :: 0 <= i < j < |d| ==> d[i] != d[j]
    ensures forall x :: multiset(d)[x] <= 1
  {
    forall x ensures multiset(d)[x] <= 1 {
      CountAtMostOne(d, x);
    }
  }

  lemma {:induction false} CountAtMostOne(d: seq<string>, x: string)
    requires forall i, j :: 0 <= i < j < |d| ==> d[i] != d[j]
    ensures multiset(d)[x] <= 1
  {
    if |d| > 0 {
      var init := d[..|d| - 1];
      CountAtMostOne(init, x);
      SplitLast(d);
      if d[|d| - 1] == x {
        assert x !in init;
      }
    }
  }

  /** The rooms offered: those on the selected building and floor, by name. */
  function FilteredSalas(salas: seq<Sala>, edificacao: string, pavimento: string): seq<Sala>
  {
    SortBy(Filter(salas, (s: Sala) => s.edificacao == edificacao && s.pavimento == pavimento),
           (s: Sala) => Key(0, 0, s.nome))
  }

  /** Exactly the rooms on the building and floor, each as often as it occurs, in name order. */
  lemma FilteredSalasCorrect(salas: seq<Sala>, edificacao: string, pavimento: string)
    ensures multiset(FilteredSalas(salas, edificacao, pavimento))
      == multiset(Filter(salas, (s: Sala) => s.edificacao == edificacao && s.pavimento == pavimento))
    ensures forall s :: s in FilteredSalas(salas, edificacao, pavimento) <==>
      s in salas && s.edificacao == edificacao && s.pavimento == pavimento
    ensures forall i, j :: 0 <= i < j < |FilteredSalas(salas, edificacao, pavimento)| ==>
      !StrLt(FilteredSalas(salas, edificacao, pavimento)[j].nome, FilteredSalas(salas, edificacao, pavimento)[i].nome)
  {
    var g := Filter(salas, (s: Sala) => s.edificacao == edificacao && s.pavimento == pavimento);
    var key := (s: Sala) => Key(0, 0, s.nome);
    SortByCorrect(g, key);
    var r := FilteredSalas(salas, edificacao, pavimento);
    forall x ensures x in r <==> x in g {
      assert x in r <==> x in multiset(r);
      assert x in g <==> x in multiset(g);
    }
    forall i, j | 0 <= i < j < |r| ensures !StrLt(r[j].nome, r[i].nome) {
      assert KeyLe(key(r[i]), key(r[j]));
    }
  }

  // ---------------------------------------------------------------------
  // Issues and the offline queue
  // ---------------------------------------------------------------------

  /** What is sent to create an issue (the random issue number is not modelled). */
  datatype Request = Request(data: string, edificacao: string, pavimento: string, setor: string, sala: string,
                             disciplina: string, divergencia: string,
                             fotoUrl: Option<string>, fotoReferenciaUrl: Option<string>)

  /** An issue kept on the device until it can be sent. */
  datatype Queued = Queued(id: string, salaId: int, request: Request, fotoBase64: Option<string>)

  /** How many sends succeeded. */
  function SuccessCount(outcomes: seq<bool>): (n: nat)
    ensures n <= |outcomes|
  {
    if |outcomes| == 0 then 0
    else SuccessCount(outcomes[..|outcomes| - 1]) + (if outcomes[|outcomes| - 1] then 1 else 0)
  }

  /** The count of successes is the queue's length exactly when every send succeeded. */
  lemma {:induction false} SuccessCountAll(outcomes: seq<bool>)
    ensures SuccessCount(outcomes) == |outcomes| <==> forall k :: 0 <= k < |outcomes| ==> outcomes[k]
  {
    if |outcomes| > 0 {
      var n := |outcomes| - 1;
      var o := outcomes[..n];
      SuccessCountAll(o);
      assert forall k :: 0 <= k < n ==> o[k] == outcomes[k];
    }
  }

  /** The queued items whose send failed, in queue order. */
  function Failures(queue: seq<Queued>, outcomes: seq<bool>): (r: seq<Queued>)
    requires |outcomes| == |queue|
    ensures |r| == |queue| - SuccessCount(outcomes)
  {
    if |queue| == 0 then []
    else
      var n := |queue| - 1;
      Failures(queue[..n], outcomes[..n]) + (if outcomes[n] then [] else [queue[n]])
  }

  /** The send loop of syncQueue over a queue snapshot: every request is sent, the failed items are kept in order. */
  method SendKeepingFailures(queue: seq<Queued>, outcomes: seq<bool>) returns (sent: seq<Request>, remaining: seq<Queued>)
    requires |outcomes| == |queue|
    ensures |sent| == |queue|
    ensures forall k :: 0 <= k < |sent| ==> sent[k] == queue[k].request
    ensures remaining == Failures(queue, outcomes)
  {
    sent := [];
    remaining := [];
    for i := 0 to |queue|
      invariant sent == Requests(queue[..i])
      invariant remaining == Failures(queue[..i], outcomes[..i])
    {
      sent := sent + [queue[i].request];
      RequestsPrefix(queue, i);
      FailuresPrefix(queue, outcomes, i);
      if !outcomes[i] {
        remaining := remaining + [queue[i]];
      }
    }
    assert queue[..|queue|] == queue;
    assert outcomes[..|outcomes|] == outcomes;
  }

  /** The requests of the queued items, in queue order. */
  function Requests(queue: seq<Queued>): (r: seq<Request>)
    ensures |r| == |queue|
    ensures forall k :: 0 <= k < |queue| ==> r[k] == queue[k].request
  {
    seq(|queue|, k requires 0 <= k < |queue| => queue[k].request)
  }

  lemma RequestsPrefix(queue: seq<Queued>, i: nat)
    requires i < |queue|
    ensures Requests(queue[..i + 1]) == Requests(queue[..i]) + [queue[i].request]
  {
  }

  /** The failures among the first `i + 1` sends extend those among the first `i`. */
  lemma FailuresPrefix(queue: seq<Queued>, outcomes: seq<bool>, i: nat)
    requires |outcomes| == |queue| && i < |queue|
    ensures Failures(queue[..i + 1], outcomes[..i + 1])
      == Failures(queue[..i], outcomes[..i]) + (if outcomes[i] then [] else [queue[i]])
  {
    assert queue[..i + 1][..i] == queue[..i];
    assert outcomes[..i + 1][..i] == outcomes[..i];
  }

  /** Exactly the items whose send failed are kept. */
  lemma {:induction false} FailuresExact(queue: seq<Queued>, outcomes: seq<bool>, x: Queued)
    requires |outcomes| == |queue|
    ensures x in Failures(queue, outcomes) <==> exists k :: 0 <= k < |queue| && !outcomes[k] && queue[k] == x
  {
    if |queue| > 0 {
      var n := |queue| - 1;
      var q, o := queue[..n], outcomes[..n];
      assert Failures(queue, outcomes) == Failures(q, o) + (if outcomes[n] then [] else [queue[n]]);
      FailuresExact(q, o, x);
      if exists k :: 0 <= k < |queue| && !outcomes[k] && queue[k] == x {
        var k :| 0 <= k < |queue| && !outcomes[k] && queue[k] == x;
        if k < n {
          assert q[k] == x && !o[k];
        }
      }
      if x in Failures(q, o) {
        var k :| 0 <= k < n && !o[k] && q[k] == x;
        assert !outcomes[k] && queue[k] == x;
      }
    }
  }

  /**
   * When the successes all come before the failures, dropping the first
   * `successCount` items keeps exactly the failed ones.
   */
  lemma {:induction false} SuccessesFirstAgree(queue: seq<Queued>, outcomes: seq<bool>)
    requires |outcomes| == |queue|
    requires forall i, j :: 0 <= i < j < |outcomes| && outcomes[j] ==> outcomes[i]
    ensures queue[SuccessCount(outcomes)..] == Failures(queue, outcomes)
  {
    if |queue| > 0 {
      var n := |queue| - 1;
      var o := outcomes[..n];
      assert forall k :: 0 <= k < n ==> o[k] == outcomes[k];
      if outcomes[n] {
        LastSucceeded(queue, outcomes);
      } else {
        SuccessesFirstAgree(queue[..n], o);
        LastFailed(queue, outcomes);
      }
    }
  }

  /** A successful last send under successes-first means every send succeeded: nothing is left either way. */
  lemma LastSucceeded(queue: seq<Queued>, outcomes: seq<bool>)
    requires |outcomes| == |queue| > 0 && outcomes[|queue| - 1]
    requires forall i :: 0 <= i < |outcomes| - 1 ==> outcomes[i]
    ensures queue[SuccessCount(outcomes)..] == Failures(queue, outcomes)
  {
    SuccessCountAll(outcomes);
    assert |Failures(queue, outcomes)| == 0;
  }

  /** A failed last send is kept by both: the failures of the prefix grow by that item, and the count stays. */
  lemma LastFailed(queue: seq<Queued>, outcomes: seq<bool>)
    requires |outcomes| == |queue| > 0 && !outcomes[|queue| - 1]
    requires queue[..|queue| - 1][SuccessCount(outcomes[..|queue| - 1])..]
      == Failures(queue[..|queue| - 1], outcomes[..|queue| - 1])
    ensures queue[SuccessCount(outcomes)..] == Failures(queue, outcomes)
  {
    var n := |queue| - 1;
    var q, o := queue[..n], outcomes[..n];
    SplitLast(queue);
    var c := SuccessCount(o);
    assert SuccessCount(outcomes) == c;
    assert Failures(queue, outcomes) == Failures(q, o) + [queue[n]];
    SliceOfAppend(q, queue[n], c);
  }

  lemma SliceOfAppend(q: seq<Queued>, x: Queued, c: nat)
    requires c <= |q|
    ensures (q + [x])[c..] == q[c..] + [x]
  {
  }

  /**
   * The queue as written keeps a sent item and drops a failed one: with
   * two items where the first fails and the second succeeds, the second
   * stays queued (and will be sent again) while the first is lost.
   */
  lemma SyncDropsFailedItem(a: Queued, b: Queued)
    requires a != b
    ensures [a, b][SuccessCount([false, true])..] == [b]
    ensures Failures([a, b], [false, true]) == [a]
  {
    assert [false, true][..1] == [false];
    assert [a, b][..1] == [a];
    assert SuccessCount([false]) == 0;
  }

  /** The item offline mode stores: the form's request, a local id and the first photo preview there is. */
  function QueuedOf(id: string, sala: Sala, request: Request, raPreview: Option<string>,
                    realPreview: Option<string>): (q: Queued)
    ensures q.request == request && q.salaId == sala.id
    ensures Truthy(raPreview) ==> q.fotoBase64 == raPreview
    ensures !Truthy(raPreview) && Truthy(realPreview) ==> q.fotoBase64 == realPreview
    ensures !Truthy(raPreview) && !Truthy(realPreview) ==> q.fotoBase64.None?
  {
    Queued(id, sala.id, request,
           if Truthy(raPreview) then raPreview else if Truthy(realPreview) then realPreview else None)
  }

  /** A photo URL is kept only if the photo was chosen, the device is online and the upload gave a URL. */
  function UploadedUrl(online: bool, file: Option<string>, uploaded: Option<string>): (r: Option<string>)
    ensures r.Some? <==> online && file.Some? && Truthy(uploaded)
    ensures r.Some? ==> r == uploaded
  {
    if online && file.Some? && Truthy(uploaded) then uploaded else None
  }

  /** The field report form's state. Photos are represented by an opaque file handle and a data-URL preview. */
  class FieldReportForm {
    var selectedEdificacao: string
    var selectedPavimento: string
    var selectedSala: Option<Sala>
    var disciplina: string
    var divergencia: string
    var fotoRA: Option<string>
    var fotoRAPreview: Option<string>
    var fotoReal: Option<string>
    var fotoRealPreview: Option<string>
    var offlineQueue: seq<Queued>
    var isOnline: bool

    constructor(online: bool)
      ensures selectedEdificacao == "" && selectedPavimento == "" && selectedSala.None?
      ensures disciplina == "" && divergencia == ""
      ensures fotoRA.None? && fotoRAPreview.None? && fotoReal.None? && fotoRealPreview.None?
      ensures offlineQueue == [] && isOnline == online
    {
      selectedEdificacao := "";
      selectedPavimento := "";
      selectedSala := None;
      disciplina := "";
      divergencia := "";
      fotoRA := None;
      fotoRAPreview := None;
      fotoReal := None;
      fotoRealPreview := None;
      offlineQueue := [];
      isOnline := online;
    }

    /** All required fields are filled in. */
    predicate CanAdd()
      reads this
    {
      selectedSala.Some? && disciplina != "" && divergencia != ""
    }

    /** Picking a building forgets the floor and the room. */
    method SelectEdificacao(e: string)
      modifies this
      ensures selectedEdificacao == e && selectedPavimento == "" && selectedSala.None?
      ensures disciplina == old(disciplina) && divergencia == old(divergencia)
      ensures offlineQueue == old(offlineQueue) && isOnline == old(isOnline)
      ensures fotoRA == old(fotoRA) && fotoRAPreview == old(fotoRAPreview)
      ensures fotoReal == old(fotoReal) && fotoRealPreview == old(fotoRealPreview)
    {
      selectedEdificacao := e;
      selectedPavimento := "";
      selectedSala := None;
    }

    /** Picking a floor forgets the room and keeps the building. */
    method SelectPavimento(p: string)
      modifies this
      ensures selectedPavimento == p && selectedSala.None? && selectedEdificacao == old(selectedEdificacao)
      ensures disciplina == old(disciplina) && divergencia == old(divergencia)
      ensures offlineQueue == old(offlineQueue) && isOnline == old(isOnline)
      ensures fotoRA == old(fotoRA) && fotoRAPreview == old(fotoRAPreview)
      ensures fotoReal == old(fotoReal) && fotoRealPreview == old(fotoRealPreview)
    {
      selectedPavimento := p;
      selectedSala := None;
    }

    method SelectSala(s: Sala)
      modifies this`selectedSala
      ensures selectedSala == Some(s)
    {
      selectedSala := Some(s);
    }

    /** The browser's online and offline events. */
    method SetOnline(online: bool)
      modifies this`isOnline
      ensures isOnline == online
    {
      isOnline := online;
    }

    /** The create mutation's success callback clears the text fields. */
    method OnCreateSuccess()
      modifies this`disciplina, this`divergencia
      ensures disciplina == "" && divergencia == ""
    {
      disciplina := "";
      divergencia := "";
    }

    /**
     * handleAddApontamento. A form missing the room, the discipline or the
     * divergence is rejected and nothing changes. Otherwise the request is
     * sent when online (`sent`) or appended to the end of the queue when
     * offline, and the text fields and photos are cleared. `now` is the
     * current time as text, `uuid` a fresh local id, and `uploadedRA` and
     * `uploadedReal` what the two photo uploads answered.
     */
    method AddApontamento(now: string, uuid: string, uploadedRA: Option<string>, uploadedReal: Option<string>)
      returns (sent: Option<Request>)
      modifies this
      ensures !old(CanAdd()) ==>
        (sent.None? && offlineQueue == old(offlineQueue)
         && disciplina == old(disciplina) && divergencia == old(divergencia)
         && fotoRA == old(fotoRA) && fotoReal == old(fotoReal)
         && fotoRAPreview == old(fotoRAPreview) && fotoRealPreview == old(fotoRealPreview))
      ensures old(CanAdd()) ==>
        var s := old(selectedSala).value;
        var request := Request(now, s.edificacao, s.pavimento, s.setor, s.nome, old(disciplina), old(divergencia),
                               UploadedUrl(old(isOnline), old(fotoReal), uploadedReal),
                               UploadedUrl(old(isOnline), old(fotoRA), uploadedRA));
        && (old(isOnline) ==> sent == Some(request) && offlineQueue == old(offlineQueue))
        && (!old(isOnline) ==>
              (sent.None?
               && offlineQueue == old(offlineQueue) + [QueuedOf(uuid, s, request, old(fotoRAPreview), old(fotoRealPreview))]))
        && disciplina == "" && divergencia == ""
        && fotoRA.None? && fotoRAPreview.None? && fotoReal.None? && fotoRealPreview.None?
      ensures selectedEdificacao == old(selectedEdificacao) && selectedPavimento == old(selectedPavimento)
      ensures selectedSala == old(selectedSala) && isOnline == old(isOnline)
    {
      if !(selectedSala.Some? && disciplina != "" && divergencia != "") {
        return None;
      }
      var finalFotoUrl := UploadedUrl(isOnline, fotoReal, uploadedReal);
      var finalFotoReferenciaUrl := UploadedUrl(isOnline, fotoRA, uploadedRA);
      var s := selectedSala.value;
      var request := Request(now, s.edificacao, s.pavimento, s.setor, s.nome, disciplina, divergencia,
                             finalFotoUrl, finalFotoReferenciaUrl);
      if isOnline {
        sent := Some(request);
      } else {
        sent := None;
        offlineQueue := offlineQueue + [QueuedOf(uuid, s, request, fotoRAPreview, fotoRealPreview)];
      }
      disciplina := "";
      divergencia := "";
      fotoRA := None;
      fotoRAPreview := None;
      fotoReal := None;
      fotoRealPreview := None;
    }

    /**
     * syncQueue as written: sends every queued item in order (`outcomes[k]`
     * says whether the k-th send succeeded), then keeps the queue minus its
     * first `successCount` items, whichever items actually failed.
     */
    method SyncQueue(outcomes: seq<bool>) returns (sent: seq<Request>)
      requires |outcomes| == |offlineQueue|
      modifies this`offlineQueue, this`disciplina, this`divergencia
      ensures |sent| == |old(offlineQueue)|
      ensures forall k :: 0 <= k < |sent| ==> sent[k] == old(offlineQueue)[k].request
      ensures offlineQueue == old(offlineQueue)[SuccessCount(outcomes)..]
      ensures SuccessCount(outcomes) > 0 ==> disciplina == "" && divergencia == ""
      ensures SuccessCount(outcomes) == 0 ==> disciplina == old(disciplina) && divergencia == old(divergencia)
    {
      sent := [];
      if |offlineQueue| == 0 {
        return;
      }
      var successCount := 0;
      var queue := offlineQueue;
      for i := 0 to |queue|
        invariant sent == Requests(queue[..i])
        invariant successCount == SuccessCount(outcomes[..i])
        invariant successCount > 0 ==> disciplina == "" && divergencia == ""
        invariant successCount == 0 ==> disciplina == old(disciplina) && divergencia == old(divergencia)
      {
        sent := sent + [queue[i].request];
        RequestsPrefix(queue, i);
        assert outcomes[..i + 1][..i] == outcomes[..i];
        if outcomes[i] {
          // Each successful send runs the create mutation's success callback.
          OnCreateSuccess();
          successCount := successCount + 1;
        }
      }
      assert queue[..|queue|] == queue;
      assert outcomes[..|outcomes|] == outcomes;
      offlineQueue := queue[successCount..];
    }

    /**
     * syncQueue keeping exactly the items whose send failed. The success
     * callback still clears the text fields once some send succeeds.
     */
    method SyncQueueKeepingFailures(outcomes: seq<bool>) returns (sent: seq<Request>)
      requires |outcomes| == |offlineQueue|
      modifies this`offlineQueue, this`disciplina, this`divergencia
      ensures |sent| == |old(offlineQueue)|
      ensures forall k :: 0 <= k < |sent| ==> sent[k] == old(offlineQueue)[k].request
      ensures offlineQueue == Failures(old(offlineQueue), outcomes)
      ensures SuccessCount(outcomes) > 0 ==> disciplina == "" && divergencia == ""
      ensures SuccessCount(outcomes) == 0 ==> disciplina == old(disciplina) && divergencia == old(divergencia)
    {
      var remaining;
      sent, remaining := SendKeepingFailures(offlineQueue, outcomes);
      offlineQueue := remaining;
      if SuccessCount(outcomes) > 0 {
        OnCreateSuccess();
      }
    }
  }
}
