/** The create-box form (app/dashboard/create/page.tsx): the product-list editor
    (`addProduct`, `removeProduct`) and the submit handler's guard and outcome branches.
    The outcome of the `fetch` is a parameter. */
module CreateForm {
  import opened Wrappers
  import Strings
  import Seqs

  /** The page's state: `formData`, `newProduct` and `error`. */
  datatype Form = Form(
    nombre: string,
    pais: string,
    descripcion: string,
    imagen: string,
    precio: string,
    productos: seq<string>,
    newProduct: string,
    error: string)

  const Initial := Form("", "", "", "", "", [], "", "")

  const NoProductsMessage := "Please add at least one product"
  const SubmitFailedMessage := "Failed to create snack box. Please try again."

  /** Every product is non-blank, already trimmed, and listed once. */
  predicate ValidProducts(productos: seq<string>) {
    && (forall i :: 0 <= i < |productos| ==> productos[i] != "" && Strings.Trim(productos[i]) == productos[i])
    && (forall i, j :: 0 <= i < j < |productos| ==> productos[i] != productos[j])
  }

  /** `addProduct`: appends the trimmed input when it is non-empty and not listed yet,
      and only then clears the input; otherwise nothing changes. */
  function AddProduct(f: Form): (g: Form)
    ensures var t := Strings.Trim(f.newProduct);
            t != "" && t !in f.productos ==> g == f.(productos := f.productos + [t], newProduct := "")
    ensures var t := Strings.Trim(f.newProduct);
            t == "" || t in f.productos ==> g == f
    ensures ValidProducts(f.productos) ==> ValidProducts(g.productos)
  {
    var t := Strings.Trim(f.newProduct);
    if t != "" && t !in f.productos then
      Strings.TrimIdempotent(f.newProduct);
      AppendKeepsValid(f.productos, t);
      f.(productos := f.productos + [t], newProduct := "")
    else f
  }

  lemma AppendKeepsValid(p: seq<string>, t: string)
    requires t != "" && Strings.Trim(t) == t && t !in p
    ensures ValidProducts(p) ==> ValidProducts(p + [t])
  {
    if ValidProducts(p) {
      var q := p + [t];
      forall i, j | 0 <= i < j < |q|
        ensures q[i] != q[j]
      {
        if j == |p| {
          assert q[i] == p[i];
        }
      }
    }
  }

  /** `removeProduct(index)`: drops exactly the product at `index`, keeping the others
      in order; an index outside the list changes nothing. Other fields are untouched. */
  function RemoveProduct(f: Form, index: int): (g: Form)
    ensures 0 <= index < |f.productos| ==> g.productos == f.productos[..index] + f.productos[index + 1..]
    ensures !(0 <= index < |f.productos|) ==> g == f
    ensures g == f.(productos := g.productos)
    ensures ValidProducts(f.productos) ==> ValidProducts(g.productos)
  {
    var g := f.(productos := Seqs.DropIndex(f.productos, index));
    if 0 <= index < |f.productos| && ValidProducts(f.productos) then
      DropKeepsValid(f.productos, index);
      g
    else g
  }

  lemma DropKeepsValid(p: seq<string>, index: int)
    requires 0 <= index < |p|
    requires ValidProducts(p)
    ensures ValidProducts(p[..index] + p[index + 1..])
  {
    var q := p[..index] + p[index + 1..];
    forall i | 0 <= i < |q|
      ensures q[i] == p[if i < index then i else i + 1]
    {
    }
  }

  /** Removing the product just added restores the list and leaves only the cleared input. */
  lemma RemoveUndoesAdd(f: Form)
    requires Strings.Trim(f.newProduct) != "" && Strings.Trim(f.newProduct) !in f.productos
    ensures RemoveProduct(AddProduct(f), |f.productos|) == f.(newProduct := "")
  {
    assert (f.productos + [Strings.Trim(f.newProduct)])[..|f.productos|] == f.productos;
  }

  /** The `fetch` outcome of a submission. */
  datatype PostOutcome = Responded(ok: bool) | NetworkError

  datatype Submission = Submission(form: Form, posted: bool, navigateTo: Option<string>)

  /** `handleSubmit`: an empty product list is refused locally without a request;
      otherwise the form is POSTed, an ok response navigates to the dashboard and
      any other outcome sets the failure message. */
  function HandleSubmit(f: Form, outcome: PostOutcome): (s: Submission)
    ensures s.posted <==> |f.productos| > 0
    ensures !s.posted ==> s.form == f.(error := NoProductsMessage) && s.navigateTo.None?
    ensures s.navigateTo.Some? <==> s.posted && outcome == Responded(true)
    ensures s.navigateTo.Some? ==> s.navigateTo.value == "/dashboard" && s.form == f.(error := "")
    ensures s.posted && outcome != Responded(true) ==> s.form == f.(error := SubmitFailedMessage)
    ensures s.form.productos == f.productos
  {
    var cleared := f.(error := "");
    if |f.productos| == 0 then Submission(cleared.(error := NoProductsMessage), false, None)
    else
      match outcome
      case Responded(ok) =>
        if ok then Submission(cleared, true, Some("/dashboard"))
        else Submission(cleared.(error := SubmitFailedMessage), true, None)
      case NetworkError => Submission(cleared.(error := SubmitFailedMessage), true, None)
  }

  /** The user's interactions with the form. */
  datatype Edit =
    | SetNombre(text: string)
    | SetPais(text: string)
    | SetDescripcion(text: string)
    | SetImagen(text: string)
    | SetPrecio(text: string)
    | SetNewProduct(text: string)
    | Add
    | Remove(index: int)
    | Submit(outcome: PostOutcome)

  function Apply(f: Form, e: Edit): Form {
    match e
    case SetNombre(t) => f.(nombre := t)
    case SetPais(t) => f.(pais := t)
    case SetDescripcion(t) => f.(descripcion := t)
    case SetImagen(t) => f.(imagen := t)
    case SetPrecio(t) => f.(precio := t)
    case SetNewProduct(t) => f.(newProduct := t)
    case Add => AddProduct(f)
    case Remove(i) => RemoveProduct(f, i)
    case Submit(o) => HandleSubmit(f, o).form
  }

  function ApplyAll(f: Form, edits: seq<Edit>): Form
    decreases |edits|
  {
    if |edits| == 0 then f else ApplyAll(Apply(f, edits[0]), edits[1..])
  }

  /** Starting from the empty form, whatever the user does, the product list never
      holds a blank, untrimmed or repeated entry. */
  lemma {:induction false} EditsKeepProductsValid(f: Form, edits: seq<Edit>)
    requires ValidProducts(f.productos)
    ensures ValidProducts(ApplyAll(f, edits).productos)
    decreases |edits|
  {
    if |edits| > 0 {
      EditsKeepProductsValid(Apply(f, edits[0]), edits[1..]);
    }
  }

  lemma ReachableFormsAreValid(edits: seq<Edit>)
    ensures ValidProducts(ApplyAll(Initial, edits).productos)
  {
    EditsKeepProductsValid(Initial, edits);
  }
}
