/**
 * The static bank of practice sentences: five work groups of five English sentences
 * with their Spanish translations, kept in definition order as the source's dictionary is.
 */
module SentenceBank {

  /** One practice sentence with its reference translation. */
  datatype Sentence = Sentence(english: string, spanish: string)

  /** `SENTENCE_GROUPS`, as an ordered list of (group name, sentences) entries. */
  const Groups: seq<(string, seq<Sentence>)> := [
    ("Greetings", [
      Sentence("Hello, how are you?", "Hola, ¿cómo estás?"),
      Sentence("Good morning!", "¡Buenos días!"),
      Sentence("My name is John.", "Me llamo John."),
      Sentence("Nice to meet you.", "Encantado de conocerte."),
      Sentence("See you tomorrow!", "¡Hasta mañana!")]),
    ("Food", [
      Sentence("I want a coffee, please.", "Quiero un café, por favor."),
      Sentence("The restaurant is closed.", "El restaurante está cerrado."),
      Sentence("This food is delicious.", "Esta comida está deliciosa."),
      Sentence("Can I have the menu?", "¿Puedo ver el menú?"),
      Sentence("I am vegetarian.", "Soy vegetariano.")]),
    ("Travel", [
      Sentence("Where is the hotel?", "¿Dónde está el hotel?"),
      Sentence("How much is the ticket?", "¿Cuánto cuesta el boleto?"),
      Sentence("I need a taxi.", "Necesito un taxi."),
      Sentence("Is this the train to Madrid?", "¿Este es el tren a Madrid?"),
      Sentence("I am lost.", "Estoy perdido.")]),
    ("Shopping", [
      Sentence("How much does this cost?", "¿Cuánto cuesta esto?"),
      Sentence("I like this shirt.", "Me gusta esta camisa."),
      Sentence("Do you have it in blue?", "¿Lo tienen en azul?"),
      Sentence("I want to pay by card.", "Quiero pagar con tarjeta."),
      Sentence("This is expensive.", "Esto es caro.")]),
    ("Daily Activities", [
      Sentence("I wake up at 7 AM.", "Me despierto a las 7 de la mañana."),
      Sentence("I need to go to work.", "Necesito ir al trabajo."),
      Sentence("What time is it?", "¿Qué hora es?"),
      Sentence("I like to read books.", "Me gusta leer libros."),
      Sentence("I am going to the gym.", "Voy al gimnasio.")])
  ]

  /** The names of a list of entries, in order. */
  function Names(entries: seq<(string, seq<Sentence>)>): (r: seq<string>)
    ensures |r| == |entries|
    ensures forall i :: 0 <= i < |entries| ==> r[i] == entries[i].0
  {
    seq(|entries|, i requires 0 <= i < |entries| => entries[i].0)
  }

  /** The entries of a dictionary literal: no name occurs twice. */
  predicate DistinctNames(entries: seq<(string, seq<Sentence>)>) {
    forall i, j :: 0 <= i < j < |entries| ==> entries[i].0 != entries[j].0
  }

  /** Dictionary lookup with `[]` for a missing name. */
  function Lookup(entries: seq<(string, seq<Sentence>)>, name: string): seq<Sentence> {
    if entries == [] then []
    else if entries[0].0 == name then entries[0].1
    else Lookup(entries[1..], name)
  }

  /** A lookup returns the sentences stored under the name, and `[]` for an unknown name. */
  lemma {:induction false} LookupFindsEntry(entries: seq<(string, seq<Sentence>)>, name: string)
    requires DistinctNames(entries)
    ensures name !in Names(entries) ==> Lookup(entries, name) == []
    ensures forall k :: 0 <= k < |entries| && entries[k].0 == name ==> Lookup(entries, name) == entries[k].1
  {
    if entries != [] {
      var rest := entries[1..];
      NamesTail(entries);
      LookupFindsEntry(rest, name);
      forall k | 0 <= k < |entries| && entries[k].0 == name ensures Lookup(entries, name) == entries[k].1 {
        if k > 0 {
          assert rest[k - 1] == entries[k];
        }
      }
    }
  }

  /** Dropping the first entry keeps the names distinct and drops the first name. */
  lemma NamesTail(entries: seq<(string, seq<Sentence>)>)
    requires entries != [] && DistinctNames(entries)
    ensures DistinctNames(entries[1..])
    ensures Names(entries) == [entries[0].0] + Names(entries[1..])
  {
    var rest := entries[1..];
    forall i, j | 0 <= i < j < |rest| ensures rest[i].0 != rest[j].0 {
      assert rest[i] == entries[i + 1] && rest[j] == entries[j + 1];
    }
  }

  /** `get_sentence_groups`: the group names in definition order. */
  function GroupNames(): (r: seq<string>)
    ensures r == ["Greetings", "Food", "Travel", "Shopping", "Daily Activities"]
    ensures |r| == |Groups| && forall i :: 0 <= i < |Groups| ==> r[i] == Groups[i].0
  {
    Names(Groups)
  }

  /** `get_sentences_from_group`. */
  function SentencesFromGroup(name: string): (r: seq<Sentence>)
  {
    Lookup(Groups, name)
  }

  /** Every group holds exactly five sentences, and no two groups share a name. */
  lemma GroupsAreWellFormed()
    ensures DistinctNames(Groups)
    ensures forall i :: 0 <= i < |Groups| ==> |Groups[i].1| == 5
  {
  }

  /** A known group gives its own five sentences; anything else gives the empty list. */
  lemma SentencesFromGroupSpec(name: string)
    ensures name in GroupNames() ==>
      exists k :: 0 <= k < |Groups| && Groups[k].0 == name && SentencesFromGroup(name) == Groups[k].1
    ensures name in GroupNames() ==> |SentencesFromGroup(name)| == 5
    ensures name !in GroupNames() ==> SentencesFromGroup(name) == []
  {
    GroupsAreWellFormed();
    LookupFindsEntry(Groups, name);
    if name in GroupNames() {
      var k :| 0 <= k < |Groups| && GroupNames()[k] == name;
      assert Groups[k].0 == name;
    }
  }

  /** The lookup is non-empty exactly for the names `get_sentence_groups` lists. */
  lemma NonEmptyIffKnownGroup(name: string)
    ensures SentencesFromGroup(name) != [] <==> name in GroupNames()
  {
    SentencesFromGroupSpec(name);
  }
}
