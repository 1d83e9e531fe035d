/** The database the uploads write to, held in memory: the 'producao' and 'contratos' tables,
    which uploads append to, and the 'cdr' table, which an upload replaces as a whole. */
module Storage {
  import opened Cells
  import opened Production

  class Store {
    var producao: seq<ProductionRow>
    var contratos: seq<seq<Cell>>
    var cdr: Table

    /** An empty database. */
    constructor ()
      ensures producao == [] && contratos == [] && cdr == Table([], [])
    {
      producao := [];
      contratos := [];
      cdr := Table([], []);
    }

    /** Appends rows to 'producao'; the other tables are untouched. */
    method AppendProducao(rows: seq<ProductionRow>)
      modifies this
      ensures producao == old(producao) + rows
      ensures contratos == old(contratos) && cdr == old(cdr)
    {
      producao := producao + rows;
    }

    /** Appends rows to 'contratos'; the other tables are untouched. */
    method AppendContratos(rows: seq<seq<Cell>>)
      modifies this
      ensures contratos == old(contratos) + rows
      ensures producao == old(producao) && cdr == old(cdr)
    {
      contratos := contratos + rows;
    }

    /** Replaces the whole 'cdr' table; the other tables are untouched. */
    method ReplaceCdr(t: Table)
      modifies this
      ensures cdr == t
      ensures producao == old(producao) && contratos == old(contratos)
    {
      cdr := t;
    }
  }
}
