/** The one persisted entity: an interaction document of the
    'interacoes_vendedores' collection, and the fixed strings the
    application compares its fields with. */
module Interactions {

  /** Sentinel of a field the parser found no label for. */
  const NotIdentified: string := "Não identificado"
  /** Default seller name of `salvar_interacao`, and the name the manager
      view treats as "no name given". */
  const NotInformed: string := "Não informado"
  /** The two values of the applied flag. */
  const Yes: string := "Sim"
  const No: string := "Não"
  /** The ideal archetype, excluded from the alert table. */
  const Warrior: string := "O Guerreiro"
  /** Dominant archetype shown for a group with no archetype values. */
  const Undefined: string := "Não definido"

  /** The document's 'data_hora': `day` is its calendar date as a day
      number (what `.dt.date` compares), `second` the time within the day. */
  datatype Timestamp = Timestamp(day: int, second: nat)

  /** One document, with the document keys in the comments. */
  datatype Interaction = Interaction(
    input: string,       // 'input_vendedor'
    profile: string,     // 'perfil_ia'
    reaction: string,    // 'reacao_ia'
    strategy: string,    // 'estrategia_ia'
    tip: string,         // 'mini_treinamento_ia'
    applied: string,     // 'aplicou_estrategia'
    sellerName: string,  // 'nome_vendedor'
    createdAt: Timestamp // 'data_hora'
  )
}
