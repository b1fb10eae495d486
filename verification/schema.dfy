/** The canonical form schema: the descriptors of the fields whose absence
    blocks drafting. Only `path` and `label` are read by the validator; the
    type annotations are carried as data and enforced nowhere. */
module Schema {

  /** The type annotation of a descriptor. */
  datatype Kind =
    | TextAtLeast(minLength: nat)
    | NumberAtLeast(min: real)
    | DateIn(format: string)

  /** `{ path, label, type, ... }`; `title` holds the label. */
  datatype Descriptor = Descriptor(path: string, title: string, kind: Kind)

  const Version: string := "cobranca-form-1.1.0"

  /** `requiredCritical`, in declaration order. */
  const RequiredCritical: seq<Descriptor> := [
    Descriptor("partes.autor.nome", "Autor - Nome", TextAtLeast(3)),
    Descriptor("partes.autor.cpf_cnpj", "Autor - CPF/CNPJ", TextAtLeast(11)),
    Descriptor("partes.autor.endereco", "Autor - Endereço", TextAtLeast(10)),
    Descriptor("partes.reu.nome", "Réu - Nome/Razão social", TextAtLeast(3)),
    Descriptor("partes.reu.cpf_cnpj", "Réu - CPF/CNPJ", TextAtLeast(11)),
    Descriptor("partes.reu.endereco", "Réu - Endereço", TextAtLeast(10)),
    Descriptor("divida.origem", "Origem da dívida", TextAtLeast(3)),
    Descriptor("divida.valor", "Valor devido", NumberAtLeast(0.01)),
    Descriptor("divida.data_vencimento", "Data de vencimento", DateIn("YYYY-MM-DD")),
    Descriptor("fatos.descricao_orientada", "Descrição dos fatos (guiada)", TextAtLeast(50))
  ]

  /** The dotted paths of a descriptor list, in order. */
  function Paths(ds: seq<Descriptor>): (ps: seq<string>)
    ensures |ps| == |ds|
    ensures forall i :: 0 <= i < |ds| ==> ps[i] == ds[i].path
  {
    seq(|ds|, i requires 0 <= i < |ds| => ds[i].path)
  }

  /** Ten descriptors, from the plaintiff's name to the guided facts, each
      path listed once; the debt's origin text is one of them. */
  lemma RequiredCriticalShape()
    ensures |RequiredCritical| == 10
    ensures RequiredCritical[0].path == "partes.autor.nome"
    ensures RequiredCritical[9].path == "fatos.descricao_orientada"
    ensures RequiredCritical[6] == Descriptor("divida.origem", "Origem da dívida", TextAtLeast(3))
    ensures forall i, j :: 0 <= i < j < |RequiredCritical| ==> Paths(RequiredCritical)[i] != Paths(RequiredCritical)[j]
  {
  }
}
