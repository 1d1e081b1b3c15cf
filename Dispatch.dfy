/** The transaction handler table of the converter: every AccuRev transaction
    type the script knows, and the handler it is routed to. */
module Dispatch {
  import opened Base

  /** The eleven handlers; only `OnPromote` changes the git repository, the
      others only log that the transaction was ignored. */
  datatype Handler =
    | OnAdd | OnChstream | OnCo | OnDefunct | OnKeep | OnPromote
    | OnMove | OnMkstream | OnPurge | OnUndefunct | OnDefcomp

  /** `transactionHandlers`. */
  const TransactionHandlers: map<string, Handler> := map[
    "add" := OnAdd, "chstream" := OnChstream, "co" := OnCo, "defunct" := OnDefunct,
    "keep" := OnKeep, "promote" := OnPromote, "move" := OnMove, "mkstream" := OnMkstream,
    "purge" := OnPurge, "undefunct" := OnUndefunct, "defcomp" := OnDefcomp]

  /** `transactionHandlers.get(transaction.Type)`. */
  function HandlerFor(kind: string): (r: Option<Handler>)
    ensures r == Some(OnPromote) <==> kind == "promote"
  {
    if kind in TransactionHandlers then Some(TransactionHandlers[kind]) else None
  }

  /** The transaction type each handler is registered under. */
  function KindOf(h: Handler): string {
    match h
    case OnAdd => "add"
    case OnChstream => "chstream"
    case OnCo => "co"
    case OnDefunct => "defunct"
    case OnKeep => "keep"
    case OnPromote => "promote"
    case OnMove => "move"
    case OnMkstream => "mkstream"
    case OnPurge => "purge"
    case OnUndefunct => "undefunct"
    case OnDefcomp => "defcomp"
  }

  /** The table routes a type to a handler exactly when the handler is
      registered under that type: every handler is reachable, each from one
      type only, and any other type has no handler. */
  lemma HandlerTableShape(kind: string, h: Handler)
    ensures HandlerFor(kind) == Some(h) <==> kind == KindOf(h)
  {
    if kind == KindOf(h) {
      assert kind in TransactionHandlers;
    }
  }
}
