/** The catalog endpoint (app/api/cajas/route.ts): an in-memory list of boxes that `GET`
    returns and `POST` appends to. The list is threaded through explicitly, the parsed
    request body is a parameter (`None` when it is not valid JSON) and so is the clock. */
module CajasRoute {
  import opened Js
  import opened Http
  import opened Wrappers
  import Strings

  const CreateFailedMessage := "Failed to create box"

  function MockBox(id: string, nombre: string, pais: string, descripcion: string, precio: int, productos: seq<string>): Json {
    Obj(map[
      "_id" := Str(id),
      "nombre" := Str(nombre),
      "pais" := Str(pais),
      "descripcion" := Str(descripcion),
      "imagen" := Str("/placeholder.svg?height=400&width=600"),
      "precio" := Num(precio),
      "productos" := Arr(seq(|productos|, i requires 0 <= i < |productos| => Str(productos[i])))])
  }

  /** The list the module starts with. */
  const MockBoxes: seq<Json> := [
    MockBox("1", "Traditional Japanese Sweets", "Japan",
            "A carefully curated selection of Japanese candies, desserts, and teas from local makers",
            25, ["Pocky Sticks", "KitKat Matcha", "Mochi", "Dorayaki"]),
    MockBox("2", "Italian Dessert Box", "Italy",
            "Multiple traditional snacks from Italy including chocolates and biscotti",
            30, ["Biscotti", "Amaretti", "Cannoli Chips", "Espresso Chocolate"])
  ]

  /** `GET`: the current list, with status 200. */
  function HandleGet(boxes: seq<Json>): (r: Response)
    ensures r.status == 200 && r.body.Arr? && r.body.items == boxes
  {
    Response(200, Arr(boxes))
  }

  /** `{ _id: Date.now().toString(), ...body }`: the body's own properties over a
      generated id. */
  function NewBox(body: Json, now: nat): (box: Fields)
    ensures "_id" in box
    ensures "_id" !in Spread(body) ==> box["_id"] == Str(Strings.NatToDecimal(now))
    ensures forall k :: k in Spread(body) ==> k in box && box[k] == Spread(body)[k]
    ensures forall k :: k in box ==> k == "_id" || k in Spread(body)
  {
    map["_id" := Str(Strings.NatToDecimal(now))] + Spread(body)
  }

  datatype PostResult = PostResult(boxes: seq<Json>, response: Response)

  /** `POST`: a body that is not JSON gives 500 and leaves the list alone; any other body
      becomes a new box that is appended to the list and returned with status 201. */
  function HandlePost(boxes: seq<Json>, body: Option<Json>, now: nat): (r: PostResult)
    ensures body.None? ==> r == PostResult(boxes, Response(500, ErrorBody(CreateFailedMessage)))
    ensures body.Some? ==> r.response.status == 201 && r.response.body == Obj(NewBox(body.value, now))
    ensures body.Some? ==> r.boxes == boxes + [r.response.body]
  {
    match body
    case None => PostResult(boxes, Response(500, ErrorBody(CreateFailedMessage)))
    case Some(b) =>
      var box := Obj(NewBox(b, now));
      PostResult(boxes + [box], Response(201, box))
  }

  /** A later `GET` returns the earlier list followed by the created box. */
  lemma PostThenGet(boxes: seq<Json>, body: Json, now: nat)
    ensures var posted := HandlePost(boxes, Some(body), now);
            HandleGet(posted.boxes).body.items == boxes + [posted.response.body]
  {
  }

  /** A freshly loaded module serves its two seeded boxes, with ids `1` and `2`; the
      first creation keeps them and adds the new box as the third entry. */
  lemma FreshServerList(body: Json, now: nat)
    ensures var served := HandleGet(MockBoxes).body.items;
            |served| == 2 && served[0].fields["_id"] == Str("1") && served[1].fields["_id"] == Str("2")
    ensures var posted := HandlePost(MockBoxes, Some(body), now);
            |posted.boxes| == 3 && posted.boxes[..2] == MockBoxes && posted.boxes[2] == posted.response.body
  {
  }

  /** The generated id is the decimal text of the clock, so two creations at the same
      millisecond carry the same `_id`. */
  lemma SameInstantSameId(b1: Json, b2: Json, now: nat)
    requires "_id" !in Spread(b1) && "_id" !in Spread(b2)
    ensures NewBox(b1, now)["_id"] == NewBox(b2, now)["_id"]
  {
  }

  /** Creations at different instants, without a client id, carry different ids. */
  lemma DistinctInstantsDistinctIds(b1: Json, b2: Json, t1: nat, t2: nat)
    requires "_id" !in Spread(b1) && "_id" !in Spread(b2) && t1 != t2
    ensures NewBox(b1, t1)["_id"] != NewBox(b2, t2)["_id"]
  {
    Strings.NatToDecimalInjective(t1, t2);
  }

  /** A client-supplied `_id` replaces the generated one. */
  lemma ClientIdWins(body: Json, id: Json, now: nat)
    requires body.Obj? && "_id" in body.fields && body.fields["_id"] == id
    ensures NewBox(body, now)["_id"] == id
  {
  }
}
