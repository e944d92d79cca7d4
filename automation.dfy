/**
 * The server's automatic rules: the Reality Augmented release status of a
 * room, the company responsible for a discipline, and the verification
 * status of a room.
 */
module Automation {
  import opened Common
  import opened Text
  import opened Records

  const LIBERADO := "LIBERADO PARA OBRA"
  const PENDENTE := "PENDENTE"
  const VERIFICADA := "VERIFICADA"
  const REVISAR := "REVISAR"

  const THA := "Thá"
  const OCLE := "Ocle"
  const NAO_DEFINIDO := "Não Definido"

  const ThaDisciplines: seq<string> := ["HID", "ARQ", "EST", "MET"]
  const OcleDisciplines: seq<string> := ["CLI", "ELE", "ELEMT", "PCI", "LOG", "SDAI", "SPDA", "UTI"]

  /**
   * calculateStatusRA: a room is released for the works exactly when the
   * three field checks (Augin, tracker, laminated QR code) are all 1;
   * anything else (0, null, any other number) leaves it pending.
   */
  function CalculateStatusRA(s: Sala): (r: string)
    ensures r == LIBERADO || r == PENDENTE
    ensures r == LIBERADO <==>
      s.augin == Some(1) && s.trackerPosicionado == Some(1) && s.qrCodePlastificado == Some(1)
  {
    if s.augin == Some(1) && s.trackerPosicionado == Some(1) && s.qrCodePlastificado == Some(1)
    then LIBERADO else PENDENTE
  }

  /**
   * assignResponsavel: the discipline, upper-cased, is looked up in the two
   * companies' lists; an unknown discipline has no responsible company.
   */
  function AssignResponsavel(disciplina: string): (r: string)
    ensures r == THA <==> Upper(disciplina) in ThaDisciplines
    ensures r == OCLE <==> Upper(disciplina) in OcleDisciplines
    ensures r == NAO_DEFINIDO <==> Upper(disciplina) !in ThaDisciplines + OcleDisciplines
  {
    var disc := Upper(disciplina);
    if disc in ThaDisciplines then THA
    else if disc in OcleDisciplines then OCLE
    else NAO_DEFINIDO
  }

  /** The discipline lookup ignores letter case: "hid", "Hid" and "HID" go to the same company. */
  lemma AssignResponsavelIgnoresCase(a: string, b: string)
    requires Lower(a) == Lower(b)
    ensures AssignResponsavel(a) == AssignResponsavel(b)
  {
    UpperIdempotent(a);
    UpperIdempotent(b);
  }

  /** The room has observations that call for a second check (`revisar`, `obs` or `obs2`). */
  predicate HasNotes(s: Sala)
  {
    Truthy(s.revisar) || Truthy(s.obs) || Truthy(s.obs2)
  }

  /**
   * calculateRoomStatus: a second verification date settles the room as
   * verified whatever its notes; otherwise notes send it to review; otherwise
   * a first verification date makes it verified; otherwise it is pending.
   */
  function CalculateRoomStatus(s: Sala): (r: string)
    ensures r == VERIFICADA || r == REVISAR || r == PENDENTE
    ensures r == VERIFICADA <==> WhenTruthy(s.dataVerificacao2) || (!HasNotes(s) && WhenTruthy(s.dataVerificada))
    ensures r == REVISAR <==> !WhenTruthy(s.dataVerificacao2) && HasNotes(s)
  {
    if WhenTruthy(s.dataVerificacao2) then VERIFICADA
    else if HasNotes(s) then REVISAR
    else if WhenTruthy(s.dataVerificada) then VERIFICADA
    else PENDENTE
  }
}
