/**
 * The save/load protocol: `save` files a record `{"class", "saved_data"}` in
 * the persistor under the model's name; `load_model` looks a name up and
 * rebuilds the model through the registry of model classes.
 */
module Persistence {
  import opened Results

  /** A constructor argument as the persistor's JSON holds it. */
  datatype Param = Str(s: string) | Int(i: int) | Number(r: real) | Nested(fields: map<string, Param>)

  /** The keyword arguments handed to a model class's constructor. */
  type SavedData = map<string, Param>

  /** The stored record: the class name and the constructor arguments. */
  datatype Record = Record(className: string, savedData: SavedData)

  /** The persistor's catalogue of named model records. */
  class Persistor {
    var models: map<string, Record>

    /** `store_model(name, record)`. */
    method StoreModel(name: string, record: Record)
      modifies this
      ensures models == old(models)[name := record]
    {
      models := models[name := record];
    }
  }

  /**
   * `save`: files `{"class": className, "saved_data": savedData}` under
   * `modelName`, the value of `get_model_name_with_parameters()`; every other
   * entry of the store stays as it was.
   */
  method Save(p: Persistor, modelName: string, className: string, savedData: SavedData)
    modifies p
    ensures modelName in p.models && p.models[modelName] == Record(className, savedData)
    ensures forall n :: n != modelName ==> (n in p.models <==> n in old(p.models))
    ensures forall n :: n != modelName && n in old(p.models) ==> p.models[n] == old(p.models)[n]
  {
    p.StoreModel(modelName, Record(className, savedData));
  }

  /** The two ways `load_model` fails. */
  datatype LoadError =
    | NameError(modelName: string)    // the name is not in the catalogue
    | UnknownClass(className: string) // the stored class is not registered (`registered_models` raises KeyError)

  /** `load_model`: look the name up, then call the registered constructor on the saved arguments. */
  function LoadModel<M>(catalogue: map<string, Record>, registry: map<string, SavedData -> M>, modelName: string): (r: Result<M, LoadError>)
    ensures r == Failure(NameError(modelName)) <==> modelName !in catalogue
  {
    if modelName in catalogue then
      var record := catalogue[modelName];
      if record.className in registry then Success(registry[record.className](record.savedData))
      else Failure(UnknownClass(record.className))
    else
      Failure(NameError(modelName))
  }

  /**
   * Loading a name answers exactly one of: not found, an unregistered class
   * named by its record, or the registered constructor applied to the record's
   * own arguments.
   */
  lemma LoadModelCases<M>(catalogue: map<string, Record>, registry: map<string, SavedData -> M>, modelName: string)
    ensures var r := LoadModel(catalogue, registry, modelName);
      r.Success? <==> modelName in catalogue && catalogue[modelName].className in registry
    ensures var r := LoadModel(catalogue, registry, modelName);
      r.Success? ==> r.value == registry[catalogue[modelName].className](catalogue[modelName].savedData)
    ensures var r := LoadModel(catalogue, registry, modelName);
      r.Failure? && r.error.UnknownClass? <==> modelName in catalogue && catalogue[modelName].className !in registry
    ensures var r := LoadModel(catalogue, registry, modelName);
      r.Failure? && r.error.UnknownClass? ==> r.error.className == catalogue[modelName].className
  {
  }

  /**
   * Round trip: after `Save`, loading that name rebuilds the model through the
   * saved class and arguments, and loading any other name answers as before.
   */
  lemma SaveThenLoad<M>(before: map<string, Record>, after: map<string, Record>, registry: map<string, SavedData -> M>,
                        modelName: string, className: string, savedData: SavedData, other: string)
    requires modelName in after && after[modelName] == Record(className, savedData)
    requires forall n :: n != modelName ==> (n in after <==> n in before)
    requires forall n :: n != modelName && n in before ==> after[n] == before[n]
    ensures className in registry ==> LoadModel(after, registry, modelName) == Success(registry[className](savedData))
    ensures className !in registry ==> LoadModel(after, registry, modelName) == Failure(UnknownClass(className))
    ensures other != modelName ==> LoadModel(after, registry, other) == LoadModel(before, registry, other)
  {
  }
}
