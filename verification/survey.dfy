/**
 The row schema shared by the form, which writes rows, and the dashboard,
 which reads them: the answer categories, the question columns, the
 facilitator column and the facilitator roster.
 */
module Survey {
  import opened Text
  import opened Counting

  /** The five answers to every question, best first. The form offers them
      in this order and the dashboard reindexes its counts to it. */
  const Categories: seq<string> := ["Excelente", "Muy Bueno", "Bueno", "Regular", "Deficiente"]

  /** An answer as the form's radio buttons produce it: always one of five. */
  datatype Rating = Excelente | MuyBueno | Bueno | Regular | Deficiente

  /** The radio options, in the order the form lists them. */
  const FormOptions: seq<Rating> := [Excelente, MuyBueno, Bueno, Regular, Deficiente]

  /** The text a rating is stored as. */
  function Label(r: Rating): (s: string)
    ensures s in Categories
  {
    match r
    case Excelente => Categories[0]
    case MuyBueno => Categories[1]
    case Bueno => Categories[2]
    case Regular => Categories[3]
    case Deficiente => Categories[4]
  }

  /** The form's option order is the dashboard's category order, and every
      category is the label of exactly one option. */
  lemma OptionsInCategoryOrder()
    ensures |FormOptions| == |Categories|
    ensures forall i :: 0 <= i < |FormOptions| ==> Label(FormOptions[i]) == Categories[i]
    ensures Distinct(Categories)
  {
    var initials := "EMBRD";
    assert Categories[0][0] == initials[0] && Categories[1][0] == initials[1];
    assert Categories[2][0] == initials[2] && Categories[3][0] == initials[3];
    assert Categories[4][0] == initials[4];
    forall i, j | 0 <= i < j < |Categories| ensures Categories[i] != Categories[j] {
      assert Categories[i][0] == initials[i] && Categories[j][0] == initials[j];
    }
  }

  /** Distinct ratings are stored as distinct texts. */
  lemma LabelInjective(a: Rating, b: Rating)
    requires Label(a) == Label(b)
    ensures a == b
  {
  }

  const FacilitatorColumn: string := "Facilitador"
  const IdColumn: string := "ID"

  /** The selector entry that stands for every facilitator. */
  const AllFacilitators: string := "Todos"

  /** The ten question columns, in the order the dashboard charts them. */
  const Questions: seq<string> := [
    "P1_Dominio_Tema", "P2_Claridad_Exposición", "P3_Organización_Contenidos",
    "P4_Uso_Presentación", "P5_Promueve_Participación", "P6_Aclaración_Dudas",
    "P7_Metodología", "P8_Actitud_Respeto", "P9_Duración_Adecuada",
    "P10_Cumplimiento_Objetivos"]

  /** Every question column starts with `P`, so none of them is the
      facilitator column or the `ID` column. */
  lemma QuestionsAreNotKeys()
    ensures forall q <- Questions :: q != FacilitatorColumn && q != IdColumn
  {
    assert forall i :: 0 <= i < |Questions| ==> |Questions[i]| > 0 && Questions[i][0] == 'P';
  }

  /** The facilitators the form lets a participant choose from. */
  const Roster: seq<string> := [
    "Esteban Cordero Solórzano", "Pamela Montero Pérez", "Jannia Valles Brizuela",
    "Manfred Rivera Meneses", "Carlos Castro Loaiciga", "Adrián Alvarado García",
    "Luis Vásquez Solís"]
}
