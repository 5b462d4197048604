/**
 * The boot step that registers the validator: the translation-migration
 * guard and the message-modifier pipeline built by the validator factory.
 */
module ValidatorBoot {
  import opened Sequences

  /** The message modifiers the factory can add, as tags with their configuration. */
  datatype Modifier =
    | Translator(src: string)                                  // translates whole messages
    | RuleParametersModifier
    | ParameterTranslator(parameters: seq<string>, src: string) // translates named parameters
    | ParameterReplacer

  /** The ordered modifier collection, filled by successive `add` calls. */
  class Modifiers {
    var list: seq<Modifier>

    constructor ()
      ensures list == []
    {
      list := [];
    }

    method Add(m: Modifier)
      modifies this
      ensures list == old(list) + [m]
    {
      list := list + [m];
    }
  }

  /** The message translator over source `'validator'`. */
  const MessageTranslator := Translator("validator")

  /** The translator of the `:attribute` parameter over every source. */
  const AttributeTranslator := ParameterTranslator([":attribute"], "*")

  /**
   * The pipeline the factory builds, given whether a translator service is
   * registered. Its shape: parameter replacement always comes last, the
   * rule-parameters modifier is there exactly once, the translating
   * modifiers are there exactly when a translator is, and then message
   * translation precedes the rule-parameters modifier, which precedes the
   * parameter translation.
   */
  function Pipeline(hasTranslator: bool): (ms: seq<Modifier>)
    ensures |ms| > 0 && ms[|ms| - 1] == ParameterReplacer
    ensures multiset(ms)[RuleParametersModifier] == 1
    ensures multiset(ms)[ParameterReplacer] == 1
    ensures hasTranslator <==> MessageTranslator in ms
    ensures hasTranslator <==> AttributeTranslator in ms
    ensures !hasTranslator ==> forall m :: m in ms ==> !m.Translator? && !m.ParameterTranslator?
  {
    (if hasTranslator then [MessageTranslator] else [])
      + [RuleParametersModifier]
      + (if hasTranslator then [AttributeTranslator] else [])
      + [ParameterReplacer]
  }

  /** The `ValidatorInterface` factory's modifier pipeline, built `add` by `add`. */
  method CreateModifiers(hasTranslator: bool) returns (modifiers: Modifiers)
    ensures fresh(modifiers)
    ensures modifiers.list == Pipeline(hasTranslator)
  {
    modifiers := new Modifiers();
    if hasTranslator {
      modifiers.Add(MessageTranslator);
    }
    modifiers.Add(RuleParametersModifier);
    if hasTranslator {
      modifiers.Add(AttributeTranslator);
    }
    modifiers.Add(ParameterReplacer);
  }

  /** With a translator: message translation, then rule parameters, then parameter translation, then replacement. */
  lemma TranslatingPipelineOrder()
    ensures var ms := Pipeline(true);
      FirstIndex(ms, MessageTranslator) < FirstIndex(ms, RuleParametersModifier)
        < FirstIndex(ms, AttributeTranslator) < FirstIndex(ms, ParameterReplacer) == |ms| - 1
  {
  }

  /** The exact pipelines in the two configurations. */
  lemma PipelineExactly()
    ensures Pipeline(true) ==
      [Translator("validator"), RuleParametersModifier, ParameterTranslator([":attribute"], "*"), ParameterReplacer]
    ensures Pipeline(false) == [RuleParametersModifier, ParameterReplacer]
  {
  }

  /** The migrations that have been installed, in order. */
  class Migration {
    var installed: seq<string>

    constructor ()
      ensures installed == []
    {
      installed := [];
    }

    method Install(name: string)
      modifies this
      ensures installed == old(installed) + [name]
    {
      installed := installed + [name];
    }
  }

  /** The migration that installs the validator's translation files. */
  const ValidatorTranslations := "Tobento\\App\\Validation\\Migration\\ValidatorTranslations"

  /** The start of `boot`: the translations are installed only when a `trans` directory is registered. */
  method InstallTranslations(dirs: set<string>, migration: Migration)
    modifies migration
    ensures "trans" in dirs ==> migration.installed == old(migration.installed) + [ValidatorTranslations]
    ensures "trans" !in dirs ==> migration.installed == old(migration.installed)
  {
    if "trans" in dirs {
      migration.Install(ValidatorTranslations);
    }
  }
}
