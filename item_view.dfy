/**
 * The callout page for one store: a view holding the store and four text
 * labels filled from its attributes.
 */
module ItemCallout {
  import opened Wrappers
  import opened FeatureLookup

  const HoursAttribute := "hours"
  const DescriptionAttribute := "description"

  /**
   * The text of a label after it is updated from `f`'s `attribute`: the
   * attribute when it is a string, otherwise the text it showed before.
   */
  function LabelText(shown: string, f: Feature, attribute: string): (r: string)
    ensures StringAttribute(f, attribute).Some? ==> r == f.attributes[attribute].text
    ensures StringAttribute(f, attribute).None? ==> r == shown
  {
    StringAttribute(f, attribute).GetOr(shown)
  }

  /** The phone label of a store whose key is a string shows exactly its cache key. */
  lemma PhoneLabelShowsKey(shown: string, f: Feature)
    requires HasStringKey(f)
    ensures LabelText(shown, f, UniqueIdentifier) == Key(f)
  {
  }

  class CustomItemView {
    var selectedFeature: Feature
    var itemNameLabel: string
    var itemHourLabel: string
    var itemDescriptionLabel: string
    var itemPhoneNumberLabel: string

    /** Builds the page for `feature` from the nib, whose labels read the given texts, then updates the labels. */
    constructor (feature: Feature, nibName: string, nibHours: string, nibDescription: string, nibPhone: string)
      ensures selectedFeature == feature
      ensures itemNameLabel == LabelText(nibName, feature, NameAttribute)
      ensures itemHourLabel == LabelText(nibHours, feature, HoursAttribute)
      ensures itemDescriptionLabel == LabelText(nibDescription, feature, DescriptionAttribute)
      ensures itemPhoneNumberLabel == LabelText(nibPhone, feature, UniqueIdentifier)
    {
      selectedFeature := feature;
      itemNameLabel, itemHourLabel, itemDescriptionLabel, itemPhoneNumberLabel := nibName, nibHours, nibDescription, nibPhone;
      new;
      UpdateLabels();
    }

    /** Copies each string attribute of the store into its label; a missing or non-string attribute leaves its label alone. */
    method UpdateLabels()
      modifies this`itemNameLabel, this`itemHourLabel, this`itemDescriptionLabel, this`itemPhoneNumberLabel
      ensures itemNameLabel == LabelText(old(itemNameLabel), selectedFeature, NameAttribute)
      ensures itemHourLabel == LabelText(old(itemHourLabel), selectedFeature, HoursAttribute)
      ensures itemDescriptionLabel == LabelText(old(itemDescriptionLabel), selectedFeature, DescriptionAttribute)
      ensures itemPhoneNumberLabel == LabelText(old(itemPhoneNumberLabel), selectedFeature, UniqueIdentifier)
    {
      var name := StringAttribute(selectedFeature, NameAttribute);
      if name.Some? {
        itemNameLabel := name.value;
      }
      var hours := StringAttribute(selectedFeature, HoursAttribute);
      if hours.Some? {
        itemHourLabel := hours.value;
      }
      var description := StringAttribute(selectedFeature, DescriptionAttribute);
      if description.Some? {
        itemDescriptionLabel := description.value;
      }
      var number := StringAttribute(selectedFeature, UniqueIdentifier);
      if number.Some? {
        itemPhoneNumberLabel := number.value;
      }
    }
  }
}
